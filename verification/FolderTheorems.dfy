/** What the folder tree promises: its two walks undo each other. */
module FolderTheorems {
  import opened Text
  import opened FolderModel

  // ---------- the shape of the tree ----------

  lemma {:induction false} InRoots(known: set<string>, fs: seq<Folder>, u: string)
    ensures u in RootUids(known, fs) <==> exists f :: f in fs && f.uid == u && !HasParent(known, f)
  {
    if fs != [] {
      var init, last := fs[..|fs| - 1], fs[|fs| - 1];
      InRoots(known, init, u);
      assert forall f :: f in fs <==> f in init || f == last;
    }
  }

  lemma {:induction false} InKids(known: set<string>, fs: seq<Folder>, p: string, u: string)
    ensures u in ChildUids(known, fs, p) <==>
            exists f :: f in fs && f.uid == u && HasParent(known, f) && f.parentUid == p
  {
    if fs != [] {
      var init, last := fs[..|fs| - 1], fs[|fs| - 1];
      InKids(known, init, p, u);
      assert forall f :: f in fs <==> f in init || f == last;
    }
  }

  /** The parent an entry names, if it is among the known folders. */
  function KnownParent(known: set<string>, f: Folder): Option<string> {
    if HasParent(known, f) then Some(f.parentUid) else None
  }

  /** The Parent pointer of a folder is one that some entry of it names; it is missing only if none does. */
  lemma {:induction false} ParentIsNamed(known: set<string>, fs: seq<Folder>, u: string)
    ensures match ParentOf(known, fs, u)
            case Some(p) => exists f :: f in fs && f.uid == u && KnownParent(known, f) == Some(p)
            case None => forall f :: f in fs && f.uid == u ==> KnownParent(known, f) == None
  {
    if fs != [] {
      var init, last := fs[..|fs| - 1], fs[|fs| - 1];
      ParentIsNamed(known, init, u);
      assert forall f :: f in fs <==> f in init || f == last;
    }
  }

  /** Entries of one UID name the same parent. */
  ghost predicate AgreeOnParents(fs: seq<Folder>) {
    forall f, g :: f in fs && g in fs && f.uid == g.uid ==> KnownParent(Uids(fs), f) == KnownParent(Uids(fs), g)
  }

  /** Entries of one UID bear the same name, too. Distinct UIDs are a special case. */
  ghost predicate Consistent(fs: seq<Folder>) {
    AgreeOnParents(fs) && forall f, g :: f in fs && g in fs && f.uid == g.uid ==> f.name == g.name
  }

  lemma DistinctAgree(fs: seq<Folder>)
    requires DistinctUids(fs)
    ensures Consistent(fs)
  {
  }

  /** The name kept for a folder is one that some entry of it bears. */
  lemma {:induction false} NameIsBorne(fs: seq<Folder>, u: string)
    requires u in Uids(fs)
    ensures exists f :: f in fs && f.uid == u && f.name == NameOf(fs, u)
  {
    var init, last := fs[..|fs| - 1], fs[|fs| - 1];
    assert forall f :: f in fs <==> f in init || f == last;
    if last.uid == u {
      assert last in fs;
    } else {
      NameIsBorne(init, u);
    }
  }

  /** In a consistent list every entry of a folder decides its name and its parent. */
  lemma EntryDecides(fs: seq<Folder>, f: Folder)
    requires Consistent(fs) && f in fs
    ensures NameOf(fs, f.uid) == f.name && Par(fs, f.uid) == KnownParent(Uids(fs), f)
  {
    NameIsBorne(fs, f.uid);
    ParentIsNamed(Uids(fs), fs, f.uid);
  }

  /** The folder is in the lists that its Parent pointer says, and in no other. */
  ghost predicate Placed(fs: seq<Folder>, u: string) {
    (u in Roots(fs) <==> u in Uids(fs) && Par(fs, u) == None) &&
    forall p :: u in Kids(fs, p) <==> u in Uids(fs) && Par(fs, u) == Some(p)
  }

  /** Parent and Children agree, and the top level holds exactly the folders without a parent. */
  lemma PlacedByParent(fs: seq<Folder>, u: string)
    requires AgreeOnParents(fs)
    ensures Placed(fs, u)
    ensures forall p :: Par(fs, u) == Some(p) ==> u in Uids(fs) && p in Uids(fs)
  {
    ParentIsNamed(Uids(fs), fs, u);
    InRoots(Uids(fs), fs, u);
    forall p ensures u in Kids(fs, p) <==> u in Uids(fs) && Par(fs, u) == Some(p) {
      InKids(Uids(fs), fs, p, u);
    }
  }

  /** They agree for all folders exactly when entries of one UID name the same parent. */
  lemma PlacedIff(fs: seq<Folder>)
    ensures (forall u :: Placed(fs, u)) <==> AgreeOnParents(fs)
  {
    if AgreeOnParents(fs) {
      forall u ensures Placed(fs, u) {
        PlacedByParent(fs, u);
      }
    } else if forall u :: Placed(fs, u) {
      forall f | f in fs ensures Par(fs, f.uid) == KnownParent(Uids(fs), f) {
        assert Placed(fs, f.uid);
        InRoots(Uids(fs), fs, f.uid);
        InKids(Uids(fs), fs, f.parentUid, f.uid);
      }
      assert false;
    }
  }

  /** With distinct UIDs a folder is listed once, in the place its Parent pointer says, and nowhere else. */
  lemma ListedOnce(fs: seq<Folder>, u: string)
    requires DistinctUids(fs) && u in Uids(fs)
    ensures multiset(Roots(fs))[u] == if Par(fs, u) == None then 1 else 0
    ensures forall p :: multiset(Kids(fs, p))[u] == if Par(fs, u) == Some(p) then 1 else 0
  {
    DistinctAgree(fs);
    PlacedByParent(fs, u);
    AtMostOnce(Uids(fs), fs, "", u);
    forall p ensures multiset(Kids(fs, p))[u] <= 1 {
      AtMostOnce(Uids(fs), fs, p, u);
    }
  }

  lemma {:induction false} AtMostOnce(known: set<string>, fs: seq<Folder>, p: string, u: string)
    requires DistinctUids(fs)
    ensures multiset(RootUids(known, fs))[u] <= 1 && multiset(ChildUids(known, fs, p))[u] <= 1
  {
    if fs != [] {
      var init, last := fs[..|fs| - 1], fs[|fs| - 1];
      AtMostOnce(known, init, p, u);
      InRoots(known, init, u);
      InKids(known, init, p, u);
    }
  }

  /** How many entries the child lists of the folders `ps` hold together. */
  ghost function TotalKids(known: set<string>, fs: seq<Folder>, ps: set<string>): nat {
    if ps == {} then 0
    else
      var p :| p in ps;
      |ChildUids(known, fs, p)| + TotalKids(known, fs, ps - {p})
  }

  lemma {:induction false} TotalKidsAdd(known: set<string>, fs: seq<Folder>, ps: set<string>)
    requires fs != []
    ensures var init, last := fs[..|fs| - 1], fs[|fs| - 1];
            TotalKids(known, fs, ps) == TotalKids(known, init, ps) +
              if HasParent(known, last) && last.parentUid in ps then 1 else 0
    decreases ps
  {
    if ps != {} {
      var p :| p in ps;
      TotalKidsRemove(known, fs, ps, p);
      TotalKidsRemove(known, fs[..|fs| - 1], ps, p);
      TotalKidsAdd(known, fs, ps - {p});
    }
  }

  lemma {:induction false} TotalKidsRemove(known: set<string>, fs: seq<Folder>, ps: set<string>, p: string)
    requires p in ps
    ensures TotalKids(known, fs, ps) == |ChildUids(known, fs, p)| + TotalKids(known, fs, ps - {p})
    decreases ps
  {
    var q :| q in ps && TotalKids(known, fs, ps) == |ChildUids(known, fs, q)| + TotalKids(known, fs, ps - {q});
    if q != p {
      TotalKidsRemove(known, fs, ps - {q}, p);
      TotalKidsRemove(known, fs, ps - {p}, q);
      assert ps - {p} - {q} == ps - {q} - {p};
    }
  }

  lemma {:induction false} TotalEntriesOf(known: set<string>, fs: seq<Folder>)
    ensures |RootUids(known, fs)| + TotalKids(known, fs, known) == |fs|
  {
    if fs == [] {
      NoKids(known, known);
    } else {
      TotalKidsAdd(known, fs, known);
      TotalEntriesOf(known, fs[..|fs| - 1]);
    }
  }

  lemma {:induction false} NoKids(known: set<string>, ps: set<string>)
    ensures TotalKids(known, [], ps) == 0
    decreases ps
  {
    if ps != {} {
      var p :| p in ps;
      TotalKidsRemove(known, [], ps, p);
      NoKids(known, ps - {p});
    }
  }

  /** Whatever the UIDs, the top level and all child lists hold as many entries as the input. */
  lemma TotalEntries(fs: seq<Folder>)
    ensures |Roots(fs)| + TotalKids(Uids(fs), fs, Uids(fs)) == |fs|
  {
    TotalEntriesOf(Uids(fs), fs);
  }

  // ---------- which walks end ----------

  /** A walk down from the top level along child lists, ending at `u`. */
  ghost predicate HangsFrom(fs: seq<Folder>, us: seq<string>, u: string) {
    us != [] && us[0] in Roots(fs) && us[|us| - 1] == u &&
    forall i :: 0 < i < |us| ==> us[i] in Kids(fs, us[i - 1])
  }

  ghost predicate Reachable(fs: seq<Folder>, u: string) {
    exists us :: HangsFrom(fs, us, u)
  }

  lemma {:induction false} HangingIsFinite(fs: seq<Folder>, us: seq<string>, u: string)
    requires AgreeOnParents(fs) && HangsFrom(fs, us, u)
    ensures ChainLength(fs, u, |us|)
    decreases |us|
  {
    PlacedByParent(fs, u);
    if |us| > 1 {
      HangingIsFinite(fs, us[..|us| - 1], us[|us| - 2]);
    }
  }

  lemma {:induction false} FiniteHangs(fs: seq<Folder>, u: string, n: nat) returns (us: seq<string>)
    requires AgreeOnParents(fs) && ChainLength(fs, u, n)
    ensures HangsFrom(fs, us, u)
    decreases n
  {
    PlacedByParent(fs, u);
    if n == 1 {
      us := [u];
    } else {
      us := FiniteHangs(fs, Par(fs, u).value, n - 1);
      us := us + [u];
    }
  }

  /** The folders below the top level are exactly those whose Parent chain ends. */
  lemma ReachableIffFinite(fs: seq<Folder>, u: string)
    requires AgreeOnParents(fs)
    ensures Reachable(fs, u) <==> FiniteChain(fs, u)
  {
    if Reachable(fs, u) {
      var us :| HangsFrom(fs, us, u);
      HangingIsFinite(fs, us, u);
    }
    if FiniteChain(fs, u) {
      var n: nat :| ChainLength(fs, u, n);
      var us := FiniteHangs(fs, u, n);
    }
  }

  lemma {:induction false} WalkFromParent(fs: seq<Folder>, u: string, n: nat)
    ensures WalkUp(fs, u, n + 1) == match Par(fs, u) case None => None case Some(p) => WalkUp(fs, p, n)
  {
    if n > 0 {
      WalkFromParent(fs, u, n - 1);
    }
  }

  lemma {:induction false} ChainEndsWalk(fs: seq<Folder>, u: string, n: nat)
    requires ChainLength(fs, u, n)
    ensures WalkUp(fs, u, n).None?
    decreases n
  {
    WalkFromParent(fs, u, n - 1);
    if n > 1 {
      ChainEndsWalk(fs, Par(fs, u).value, n - 1);
    }
  }

  lemma {:induction false} EndedWalkHasChain(fs: seq<Folder>, u: string, n: nat)
    requires AgreeOnParents(fs) && u in Uids(fs) && WalkUp(fs, u, n).None?
    ensures FiniteChain(fs, u)
    decreases n
  {
    PlacedByParent(fs, u);
    WalkFromParent(fs, u, n - 1);
    if Par(fs, u).None? {
      assert ChainLength(fs, u, 1);
    } else {
      EndedWalkHasChain(fs, Par(fs, u).value, n - 1);
      var k: nat :| ChainLength(fs, Par(fs, u).value, k);
      assert ChainLength(fs, u, k + 1);
    }
  }

  /** GetPath's loop ends for exactly the folders below the top level: for every other one,
      the walk is still at some folder after any number of steps. */
  lemma GetPathEndsIffReachable(fs: seq<Folder>, u: string)
    requires AgreeOnParents(fs) && u in Uids(fs)
    ensures Reachable(fs, u) <==> exists n: nat :: WalkUp(fs, u, n).None?
  {
    ReachableIffFinite(fs, u);
    if FiniteChain(fs, u) {
      var n: nat :| ChainLength(fs, u, n);
      ChainEndsWalk(fs, u, n);
    }
    if exists n: nat :: WalkUp(fs, u, n).None? {
      var n: nat :| WalkUp(fs, u, n).None?;
      EndedWalkHasChain(fs, u, n);
    }
  }

  // ---------- resolving and printing undo each other ----------

  lemma NamesToIs(fs: seq<Folder>, u: string, n: nat)
    requires ChainLength(fs, u, n)
    ensures FiniteChain(fs, u) && NamesTo(fs, u) == PathNames(fs, u, n)
  {
    var m: nat :| ChainLength(fs, u, m) && NamesTo(fs, u) == PathNames(fs, u, m);
    ChainUnique(fs, u, m, n);
  }

  lemma {:induction false} LookupSound(fs: seq<Folder>, parts: seq<string>)
    requires AgreeOnParents(fs) && parts != [] && Lookup(fs, parts).Some?
    ensures var u := Lookup(fs, parts).value;
            ChainLength(fs, u, |parts|) && PathNames(fs, u, |parts|) == parts
    decreases |parts|
  {
    var u, n := Lookup(fs, parts).value, |parts| - 1;
    if n == 0 {
      TopFolderChain(fs, u);
      assert parts == [parts[0]];
    } else {
      var p := Lookup(fs, parts[..n]).value;
      LookupSound(fs, parts[..n]);
      ChildChain(fs, p, u, n);
      assert parts == parts[..n] + [parts[n]];
    }
  }

  lemma TopFolderChain(fs: seq<Folder>, u: string)
    requires AgreeOnParents(fs) && u in Roots(fs)
    ensures ChainLength(fs, u, 1) && PathNames(fs, u, 1) == [NameOf(fs, u)]
  {
    PlacedByParent(fs, u);
  }

  lemma ChildChain(fs: seq<Folder>, p: string, u: string, n: nat)
    requires AgreeOnParents(fs) && u in Kids(fs, p) && ChainLength(fs, p, n)
    ensures ChainLength(fs, u, n + 1) && PathNames(fs, u, n + 1) == PathNames(fs, p, n) + [NameOf(fs, u)]
  {
    PlacedByParent(fs, u);
  }

  /** Whatever folder a path resolves to, cycles elsewhere or not, its Parent chain ends
      and its full path is the resolved one without empty components. */
  lemma ResolveThenGetPath(fs: seq<Folder>, path: string)
    requires AgreeOnParents(fs) && Resolve(fs, path).Found?
    ensures var u := Resolve(fs, path).uid;
            FiniteChain(fs, u) && NamesTo(fs, u) == Components(path) && PathOf(fs, u) == JoinSlash(Components(path))
  {
    var parts := Components(path);
    LookupSound(fs, parts);
    NamesToIs(fs, Resolve(fs, path).uid, |parts|);
  }

  /** The places among which a folder is chosen by name. */
  function SiblingsOf(fs: seq<Folder>, u: string): seq<string> {
    match Par(fs, u)
    case None => Roots(fs)
    case Some(p) => Kids(fs, p)
  }

  /** Nothing on the chain of `u` is hidden by an earlier sibling of the same name. */
  ghost predicate Visible(fs: seq<Folder>, u: string, n: nat)
    requires ChainLength(fs, u, n)
    decreases n
  {
    FirstNamed(fs, SiblingsOf(fs, u), NameOf(fs, u)) == Some(u) &&
    (n > 1 ==> Visible(fs, Par(fs, u).value, n - 1))
  }

  lemma {:induction false} LookupNames(fs: seq<Folder>, u: string, n: nat)
    requires AgreeOnParents(fs) && ChainLength(fs, u, n)
    ensures Lookup(fs, PathNames(fs, u, n)) == Some(u) <==> Visible(fs, u, n)
    decreases n
  {
    var names := PathNames(fs, u, n);
    PlacedByParent(fs, u);
    if n > 1 {
      var p := Par(fs, u).value;
      assert names[..n - 1] == PathNames(fs, p, n - 1) && names[n - 1] == NameOf(fs, u);
      LookupNames(fs, p, n - 1);
      if Lookup(fs, names) == Some(u) {
        var q := Lookup(fs, names[..n - 1]).value;
        assert u in Kids(fs, q);
      }
    }
  }

  /** Printing a folder's path and resolving it leads back to that folder exactly when every name
      on its chain is a path component and no earlier sibling bears the same name. */
  lemma GetPathThenResolve(fs: seq<Folder>, u: string, n: nat)
    requires AgreeOnParents(fs) && ChainLength(fs, u, n)
    ensures FiniteChain(fs, u)
    ensures Resolve(fs, PathOf(fs, u)) == Found(u) <==> AllComponents(PathNames(fs, u, n)) && Visible(fs, u, n)
  {
    NamesToIs(fs, u, n);
    var names, path := PathNames(fs, u, n), PathOf(fs, u);
    if AllComponents(names) {
      ComponentsOfJoin(names);
      JoinNoDoubleSlash(names);
      LookupNames(fs, u, n);
    } else if Resolve(fs, path) == Found(u) {
      ResolveThenGetPath(fs, path);
      assert false;
    }
  }

  /** No two folders of the same level bear the same name. */
  ghost predicate DistinctSiblings(fs: seq<Folder>) {
    forall u, v :: u in Uids(fs) && v in Uids(fs) && u != v && Par(fs, u) == Par(fs, v) ==>
      NameOf(fs, u) != NameOf(fs, v)
  }

  lemma {:induction false} FirstIsOnly(fs: seq<Folder>, us: seq<string>, u: string)
    requires u in us && forall v :: v in us && v != u ==> NameOf(fs, v) != NameOf(fs, u)
    ensures FirstNamed(fs, us, NameOf(fs, u)) == Some(u)
  {
    if us[0] != u {
      FirstIsOnly(fs, us[1..], u);
    }
  }

  lemma {:induction false} AllVisible(fs: seq<Folder>, u: string, n: nat)
    requires AgreeOnParents(fs) && DistinctSiblings(fs) && ChainLength(fs, u, n)
    ensures Visible(fs, u, n)
    decreases n
  {
    PlacedByParent(fs, u);
    forall v | v in SiblingsOf(fs, u) && v != u ensures NameOf(fs, v) != NameOf(fs, u) {
      PlacedByParent(fs, v);
    }
    FirstIsOnly(fs, SiblingsOf(fs, u), u);
    if n > 1 {
      AllVisible(fs, Par(fs, u).value, n - 1);
    }
  }

  /** With distinct sibling names, a path resolves to a folder exactly when that folder's chain
      spells the path: resolution fails only when no folder has that path. */
  lemma ResolveIffNamed(fs: seq<Folder>, path: string, u: string)
    requires AgreeOnParents(fs) && DistinctSiblings(fs)
    ensures Resolve(fs, path) == Found(u) <==> FiniteChain(fs, u) && NamesTo(fs, u) == Components(path)
  {
    if Resolve(fs, path) == Found(u) {
      ResolveThenGetPath(fs, path);
    }
    if FiniteChain(fs, u) && NamesTo(fs, u) == Components(path) {
      var n: nat :| ChainLength(fs, u, n);
      NamesToIs(fs, u, n);
      AllVisible(fs, u, n);
      LookupNames(fs, u, n);
      assert path != "";
    }
  }

  // ---------- the input order does not matter ----------

  lemma SameEntries(fs: seq<Folder>, gs: seq<Folder>)
    requires Consistent(fs) && multiset(fs) == multiset(gs)
    ensures (forall f :: f in fs <==> f in gs) && Uids(fs) == Uids(gs) && Consistent(gs)
  {
    assert forall f :: f in fs <==> f in multiset(fs);
    assert forall f :: f in gs <==> f in multiset(gs);
  }

  lemma SameFacts(fs: seq<Folder>, gs: seq<Folder>, u: string)
    requires Consistent(fs) && multiset(fs) == multiset(gs)
    ensures Par(fs, u) == Par(gs, u)
    ensures u in Uids(fs) ==> NameOf(fs, u) == NameOf(gs, u)
  {
    SameEntries(fs, gs);
    if u in Uids(fs) {
      var f :| f in fs && f.uid == u;
      EntryDecides(fs, f);
      EntryDecides(gs, f);
    } else {
      ParentIsNamed(Uids(fs), fs, u);
      ParentIsNamed(Uids(gs), gs, u);
    }
  }

  lemma SameChoice(fs: seq<Folder>, gs: seq<Folder>, us: seq<string>, vs: seq<string>, parent: Option<string>,
      name: string)
    requires Consistent(fs) && multiset(fs) == multiset(gs) && DistinctSiblings(fs)
    requires if parent.None? then us == Roots(fs) && vs == Roots(gs)
             else us == Kids(fs, parent.value) && vs == Kids(gs, parent.value)
    ensures FirstNamed(fs, us, name) == FirstNamed(gs, vs, name)
  {
    SameEntries(fs, gs);
    forall u
      ensures u in us <==> u in Uids(fs) && Par(fs, u) == parent
      ensures u in us <==> u in vs
      ensures u in us ==> NameOf(fs, u) == NameOf(gs, u)
    {
      PlacedByParent(fs, u);
      PlacedByParent(gs, u);
      SameFacts(fs, gs, u);
    }
  }

  /** At every level the same folder is chosen for a name. */
  ghost predicate SameChoices(fs: seq<Folder>, gs: seq<Folder>) {
    (forall name :: FirstNamed(fs, Roots(fs), name) == FirstNamed(gs, Roots(gs), name)) &&
    forall p, name :: FirstNamed(fs, Kids(fs, p), name) == FirstNamed(gs, Kids(gs, p), name)
  }

  lemma ReorderingKeepsChoices(fs: seq<Folder>, gs: seq<Folder>)
    requires Consistent(fs) && multiset(fs) == multiset(gs) && DistinctSiblings(fs)
    ensures SameChoices(fs, gs)
  {
    forall name ensures FirstNamed(fs, Roots(fs), name) == FirstNamed(gs, Roots(gs), name) {
      SameChoice(fs, gs, Roots(fs), Roots(gs), None, name);
    }
    forall p, name ensures FirstNamed(fs, Kids(fs, p), name) == FirstNamed(gs, Kids(gs, p), name) {
      SameChoice(fs, gs, Kids(fs, p), Kids(gs, p), Some(p), name);
    }
  }

  lemma {:induction false} SameLookup(fs: seq<Folder>, gs: seq<Folder>, parts: seq<string>)
    requires SameChoices(fs, gs) && parts != []
    ensures Lookup(fs, parts) == Lookup(gs, parts)
    decreases |parts|
  {
    var n := |parts| - 1;
    if n > 0 {
      SameLookup(fs, gs, parts[..n]);
    }
  }

  lemma {:induction false} SameMiss(fs: seq<Folder>, gs: seq<Folder>, parts: seq<string>)
    requires SameChoices(fs, gs) && parts != [] && Lookup(fs, parts).None? && Lookup(gs, parts).None?
    ensures MissAt(fs, parts) == MissAt(gs, parts)
    decreases |parts|
  {
    var init := parts[..|parts| - 1];
    if init != [] {
      SameLookup(fs, gs, init);
      if Lookup(fs, init).None? {
        SameMiss(fs, gs, init);
      }
    }
  }

  lemma FoundParts(fs: seq<Folder>, parts: seq<string>, u: string)
    requires parts != [] && Lookup(fs, parts) == Some(u)
    ensures ResolveParts(fs, parts) == Found(u)
  {
  }

  lemma MissedParts(fs: seq<Folder>, parts: seq<string>, m: nat)
    requires parts != [] && Lookup(fs, parts).None? && MissAt(fs, parts) == m
    ensures ResolveParts(fs, parts) == Failed(NotFound(JoinSlash(parts[..m + 1]), parts[m]))
  {
  }

  lemma SameOutcome(fs: seq<Folder>, gs: seq<Folder>, parts: seq<string>)
    requires parts != [] && Lookup(fs, parts) == Lookup(gs, parts)
    requires Lookup(fs, parts).None? ==> MissAt(fs, parts) == MissAt(gs, parts)
    ensures ResolveParts(fs, parts) == ResolveParts(gs, parts)
  {
    if Lookup(fs, parts).Some? {
      FoundParts(fs, parts, Lookup(fs, parts).value);
      FoundParts(gs, parts, Lookup(fs, parts).value);
    } else {
      MissedParts(fs, parts, MissAt(fs, parts));
      MissedParts(gs, parts, MissAt(fs, parts));
    }
  }

  lemma SameParts(fs: seq<Folder>, gs: seq<Folder>, parts: seq<string>)
    requires SameChoices(fs, gs) && parts != []
    ensures ResolveParts(fs, parts) == ResolveParts(gs, parts)
  {
    SameLookup(fs, gs, parts);
    if Lookup(fs, parts).None? {
      SameMiss(fs, gs, parts);
    }
    SameOutcome(fs, gs, parts);
  }

  /** Listing the same folders in another order changes no result, error messages included. */
  lemma OrderDoesNotMatter(fs: seq<Folder>, gs: seq<Folder>, path: string)
    requires Consistent(fs) && multiset(fs) == multiset(gs) && DistinctSiblings(fs)
    ensures Resolve(fs, path) == Resolve(gs, path)
  {
    ReorderingKeepsChoices(fs, gs);
    if Components(path) != [] {
      SameParts(fs, gs, Components(path));
    }
  }

  // ---------- where the conditions are needed ----------

  lemma TwiceFacts(fs: seq<Folder>)
    requires fs == [Folder("A", "", "x"), Folder("A", "A", "x")]
    ensures Roots(fs) == ["A"] && Par(fs, "A") == Some("A") && NameOf(fs, "A") == "x"
  {
    var a, b := Folder("A", "", "x"), Folder("A", "A", "x");
    var one := [a];
    assert fs == one + [b] && one == [] + [a] && a in fs;
    assert Uids(fs) == {"A"};
    EntryFacts(Uids(fs), [], a, "A");
    EntryFacts(Uids(fs), one, b, "A");
  }

  /** A UID listed twice: the folder resolves, yet its Parent chain never ends, so GetPath on the result loops. */
  lemma DuplicateUidLoops(fs: seq<Folder>)
    requires fs == [Folder("A", "", "x"), Folder("A", "A", "x")]
    ensures Resolve(fs, "x") == Found("A") && forall n: nat :: WalkUp(fs, "A", n) == Some("A")
  {
    TwiceFacts(fs);
    ComponentsOfOne("x");
    forall n: nat ensures WalkUp(fs, "A", n) == Some("A") {
      LoopsForever(fs, n);
    }
  }

  lemma {:induction false} LoopsForever(fs: seq<Folder>, n: nat)
    requires Par(fs, "A") == Some("A")
    ensures WalkUp(fs, "A", n) == Some("A")
  {
    if n > 0 {
      LoopsForever(fs, n - 1);
    }
  }

  /** Every folder in the tree, whatever its entries, can be reached from the top if its Parent chain ends. */
  lemma {:induction false} FiniteIsReachable(fs: seq<Folder>, u: string, n: nat) returns (us: seq<string>)
    requires ChainLength(fs, u, n)
    ensures HangsFrom(fs, us, u)
    decreases n
  {
    ParentIsNamed(Uids(fs), fs, u);
    if n == 1 {
      InRoots(Uids(fs), fs, u);
      us := [u];
    } else {
      var p := Par(fs, u).value;
      InKids(Uids(fs), fs, p, u);
      us := FiniteIsReachable(fs, p, n - 1);
      us := us + [u];
    }
  }

  /** The entry stands at the top level, or below a folder whose Parent chain ends. */
  ghost predicate WellPlaced(fs: seq<Folder>, f: Folder) {
    match KnownParent(Uids(fs), f) case None => true case Some(p) => FiniteChain(fs, p)
  }

  lemma {:induction false} HangingEnds(fs: seq<Folder>, us: seq<string>, u: string)
    requires HangsFrom(fs, us, u)
    requires forall f :: f in fs && WellPlaced(fs, f) ==> FiniteChain(fs, f.uid)
    ensures FiniteChain(fs, u)
    decreases |us|
  {
    if |us| == 1 {
      InRoots(Uids(fs), fs, u);
      var f :| f in fs && f.uid == u && !HasParent(Uids(fs), f);
      assert WellPlaced(fs, f);
    } else {
      var p := us[|us| - 2];
      HangingEnds(fs, us[..|us| - 1], p);
      InKids(Uids(fs), fs, p, u);
      var f :| f in fs && f.uid == u && HasParent(Uids(fs), f) && f.parentUid == p;
      assert WellPlaced(fs, f);
    }
  }

  /** For any list: the Parent walk of every folder that can be reached from the top ends exactly when no folder whose
      walk is endless has an entry at the top level or below a folder whose walk ends. */
  lemma WalksEndIff(fs: seq<Folder>)
    ensures (forall u :: Reachable(fs, u) ==> FiniteChain(fs, u)) <==>
            forall f :: f in fs && WellPlaced(fs, f) ==> FiniteChain(fs, f.uid)
  {
    if forall f :: f in fs && WellPlaced(fs, f) ==> FiniteChain(fs, f.uid) {
      forall u | Reachable(fs, u) ensures FiniteChain(fs, u) {
        var us :| HangsFrom(fs, us, u);
        HangingEnds(fs, us, u);
      }
    }
    if forall u :: Reachable(fs, u) ==> FiniteChain(fs, u) {
      forall f | f in fs && WellPlaced(fs, f) ensures FiniteChain(fs, f.uid) {
        WellPlacedIsReachable(fs, f);
      }
    }
  }

  lemma WellPlacedIsReachable(fs: seq<Folder>, f: Folder)
    requires f in fs && WellPlaced(fs, f)
    ensures Reachable(fs, f.uid)
  {
    match KnownParent(Uids(fs), f)
    case None =>
      InRoots(Uids(fs), fs, f.uid);
      assert HangsFrom(fs, [f.uid], f.uid);
    case Some(p) =>
      var n: nat :| ChainLength(fs, p, n);
      var us := FiniteIsReachable(fs, p, n);
      InKids(Uids(fs), fs, p, f.uid);
      assert HangsFrom(fs, us + [f.uid], f.uid);
  }

  const TWINS := [Folder("A", "", "x"), Folder("B", "", "x"), Folder("C", "B", "y")]

  lemma TwinUids()
    ensures Uids(TWINS) == {"A", "B", "C"} && DistinctUids(TWINS)
  {
    assert TWINS[0] in TWINS && TWINS[1] in TWINS && TWINS[2] in TWINS;
  }

  lemma TwinFacts()
    ensures Roots(TWINS) == ["A", "B"] && Kids(TWINS, "A") == []
  {
    TwinUids();
    TwinLists({"A", "B", "C"});
  }

  lemma TwinLists(known: set<string>)
    requires known == {"A", "B", "C"}
    ensures RootUids(known, TWINS) == ["A", "B"] && ChildUids(known, TWINS, "A") == []
  {
    var a, b, c := TWINS[0], TWINS[1], TWINS[2];
    assert TWINS == [a, b] + [c] && [a, b] == [a] + [b] && [a] == [] + [a];
    EntryFacts(known, [], a, "A");
    EntryFacts(known, [a], b, "A");
    EntryFacts(known, [a, b], c, "A");
  }

  lemma TwinEntries()
    ensures NameOf(TWINS, "A") == "x" && NameOf(TWINS, "B") == "x" && NameOf(TWINS, "C") == "y"
    ensures Par(TWINS, "B") == None && Par(TWINS, "C") == Some("B")
  {
    TwinUids();
    DistinctAgree(TWINS);
    EntryDecides(TWINS, TWINS[0]);
    EntryDecides(TWINS, TWINS[1]);
    EntryDecides(TWINS, TWINS[2]);
  }

  /** Two siblings of one name: a folder below the second is never found, because the first match is final. */
  lemma NoBacktracking()
    ensures ChainLength(TWINS, "C", 2) && PathNames(TWINS, "C", 2) == ["x", "y"]
    ensures Resolve(TWINS, "x/y") == Failed(NotFound("x/y", "y"))
  {
    TwinUids();
    TwinFacts();
    TwinEntries();
    assert ChainLength(TWINS, "B", 1) && PathNames(TWINS, "B", 1) == ["x"];
    var parts := ["x", "y"];
    assert parts[..1] == ["x"] && parts[..2] == parts;
    assert "x/y" == JoinSlash(parts);
    ComponentsOfJoin(parts);
    TwinLookup();
  }

  lemma TwinLookup()
    ensures Lookup(TWINS, ["x"]) == Some("A") && Lookup(TWINS, ["x", "y"]) == None
  {
    TwinFacts();
    TwinEntries();
    assert ["x", "y"][..1] == ["x"];
  }

  // ---------- every path can resolve ----------

  function TowerUid(n: nat): string {
    seq(n, _ => 'u')
  }

  /** Folders of the given names, each inside the one before. */
  function Tower(names: seq<string>): seq<Folder> {
    seq(|names|, i requires 0 <= i < |names| => Folder(TowerUid(i + 1), TowerUid(i), names[i]))
  }

  lemma TowerIsConsistent(names: seq<string>)
    ensures Consistent(Tower(names))
  {
    var fs := Tower(names);
    forall i, j | 0 <= i < j < |fs| ensures fs[i].uid != fs[j].uid {
      assert |TowerUid(i + 1)| == i + 1 && |TowerUid(j + 1)| == j + 1;
    }
    DistinctAgree(fs);
  }

  lemma TowerAt(names: seq<string>, i: nat)
    requires i < |names|
    ensures var fs, u := Tower(names), TowerUid(i + 1);
            u in Uids(fs) && NameOf(fs, u) == names[i] && Par(fs, u) == if i == 0 then None else Some(TowerUid(i))
  {
    var fs := Tower(names);
    TowerIsConsistent(names);
    assert fs[i] in fs && |fs[i].parentUid| == i;
    if i > 0 {
      assert fs[i - 1] in fs && fs[i - 1].uid == TowerUid(i);
    }
    EntryDecides(fs, fs[i]);
  }

  lemma {:induction false} TowerChain(names: seq<string>, n: nat)
    requires 0 < n <= |names|
    ensures ChainLength(Tower(names), TowerUid(n), n) && PathNames(Tower(names), TowerUid(n), n) == names[..n]
  {
    TowerAt(names, n - 1);
    if n > 1 {
      TowerChain(names, n - 1);
      assert names[..n] == names[..n - 1] + [names[n - 1]];
    } else {
      assert names[..1] == [names[0]];
    }
  }

  lemma TowerPlace(names: seq<string>, u: string) returns (i: nat)
    requires u in Uids(Tower(names))
    ensures i < |names| && |u| == i + 1 && u == TowerUid(i + 1)
    ensures match Par(Tower(names), u) case None => i == 0 case Some(p) => |p| == i > 0
  {
    var fs := Tower(names);
    i :| 0 <= i < |fs| && fs[i].uid == u;
    TowerAt(names, i);
    assert |TowerUid(i)| == i;
  }

  lemma TowerSiblings(names: seq<string>)
    ensures DistinctSiblings(Tower(names))
  {
    var fs := Tower(names);
    forall u, v | u in Uids(fs) && v in Uids(fs) && u != v ensures Par(fs, u) != Par(fs, v) {
      var i := TowerPlace(names, u);
      var j := TowerPlace(names, v);
    }
  }

  /** A path with a component in it resolves in some folder list, to a UID that is not empty. */
  lemma PathCanResolve(path: string) returns (fs: seq<Folder>, u: string)
    requires Components(path) != []
    ensures Resolve(fs, path) == Found(u) && u != ""
  {
    var names := Components(path);
    fs, u := Tower(names), TowerUid(|names|);
    TowerIsConsistent(names);
    TowerChain(names, |names|);
    TowerSiblings(names);
    AllVisible(fs, u, |names|);
    LookupNames(fs, u, |names|);
    assert names[..|names|] == names;
    assert |u| == |names|;
  }
}
