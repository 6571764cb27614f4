/** What paths and folders are in a folder list, entry by entry. */
module FolderCases {
  import opened Text
  import opened FolderModel

  // ---------- entries ----------

  /** Some entry has the UID. */
  predicate Listed(fs: seq<Folder>, u: string) {
    exists j :: 0 <= j < |fs| && fs[j].uid == u
  }

  /** The entry stands below the folder, or at the top: there without a parent, or with one that is not listed. */
  predicate Under(fs: seq<Folder>, i: nat, parent: Option<string>)
    requires i < |fs|
  {
    match parent
    case None => fs[i].parentUid == "" || !Listed(fs, fs[i].parentUid)
    case Some(p) => p != "" && fs[i].parentUid == p && Listed(fs, p)
  }

  /** The last entry of the UID has the name. */
  predicate Bears(fs: seq<Folder>, u: string, name: string) {
    exists i :: 0 <= i < |fs| && fs[i].uid == u && fs[i].name == name && forall j :: i < j < |fs| ==> fs[j].uid != u
  }

  predicate Matches(fs: seq<Folder>, i: nat, parent: Option<string>, name: string)
    requires i < |fs|
  {
    Under(fs, i, parent) && Bears(fs, fs[i].uid, name)
  }

  /** The entry is the first below the folder whose UID bears the name. */
  predicate FirstMatch(fs: seq<Folder>, i: nat, parent: Option<string>, name: string) {
    i < |fs| && Matches(fs, i, parent, name) && forall j: nat :: j < i ==> !Matches(fs, j, parent, name)
  }

  lemma ListedIff(fs: seq<Folder>, u: string)
    ensures Listed(fs, u) <==> u in Uids(fs)
  {
    if u in Uids(fs) {
      var f :| f in fs && f.uid == u;
    }
  }

  lemma UnderIff(fs: seq<Folder>, i: nat, parent: Option<string>)
    requires i < |fs|
    ensures Under(fs, i, parent) <==>
            match parent
            case None => !HasParent(Uids(fs), fs[i])
            case Some(p) => HasParent(Uids(fs), fs[i]) && fs[i].parentUid == p
  {
    ListedIff(fs, fs[i].parentUid);
  }

  lemma {:induction false} BearsIff(fs: seq<Folder>, u: string, name: string)
    requires u in Uids(fs)
    ensures Bears(fs, u, name) <==> NameOf(fs, u) == name
  {
    var n := |fs| - 1;
    if fs[n].uid != u {
      assert fs == fs[..n] + [fs[n]];
      assert u in Uids(fs[..n]) by {
        var f :| f in fs && f.uid == u;
      }
      BearsIff(fs[..n], u, name);
      BearsBefore(fs, n, u, name);
    }
  }

  lemma BearsBefore(fs: seq<Folder>, n: nat, u: string, name: string)
    requires |fs| == n + 1 && fs[n].uid != u
    ensures Bears(fs, u, name) <==> Bears(fs[..n], u, name)
  {
    if i :| 0 <= i < |fs| && fs[i].uid == u && fs[i].name == name && forall j :: i < j < |fs| ==> fs[j].uid != u {
      assert fs[..n][i] == fs[i] && forall j :: i < j < n ==> fs[..n][j] == fs[j];
    }
  }

  // ---------- one level ----------

  function LevelOf(known: set<string>, done: seq<Folder>, parent: Option<string>): seq<string> {
    match parent
    case None => RootUids(known, done)
    case Some(p) => ChildUids(known, done, p)
  }

  lemma {:induction false} FirstNamedConcat(fs: seq<Folder>, a: seq<string>, b: seq<string>, name: string)
    ensures FirstNamed(fs, a + b, name) ==
            if FirstNamed(fs, a, name).Some? then FirstNamed(fs, a, name) else FirstNamed(fs, b, name)
  {
    if a == [] {
      assert a + b == b;
    } else {
      assert (a + b)[0] == a[0] && (a + b)[1..] == a[1..] + b;
      FirstNamedConcat(fs, a[1..], b, name);
    }
  }

  lemma LevelGrows(fs: seq<Folder>, k: nat, parent: Option<string>)
    requires k < |fs|
    ensures LevelOf(Uids(fs), fs[..k + 1], parent) ==
            LevelOf(Uids(fs), fs[..k], parent) + if Under(fs, k, parent) then [fs[k].uid] else []
  {
    assert fs[..k + 1][..k] == fs[..k];
    UnderIff(fs, k, parent);
  }

  /** Among the first `k` entries the search of a level finds the first match. */
  lemma {:induction false} LevelSearch(fs: seq<Folder>, k: nat, parent: Option<string>, name: string)
    requires k <= |fs|
    ensures match FirstNamed(fs, LevelOf(Uids(fs), fs[..k], parent), name)
            case None => forall i: nat :: i < k ==> !Matches(fs, i, parent, name)
            case Some(u) => exists i: nat :: i < k && FirstMatch(fs, i, parent, name) && fs[i].uid == u
  {
    if k > 0 {
      var n := k - 1;
      LevelSearch(fs, n, parent, name);
      LevelGrows(fs, n, parent);
      FirstNamedConcat(
        fs, LevelOf(Uids(fs), fs[..n], parent), if Under(fs, n, parent) then [fs[n].uid] else [], name);
      assert fs[n] in fs && fs[n].uid in Uids(fs);
      BearsIff(fs, fs[n].uid, name);
    }
  }

  lemma LevelFirst(fs: seq<Folder>, parent: Option<string>, name: string)
    ensures var level := match parent case None => Roots(fs) case Some(p) => Kids(fs, p);
            match FirstNamed(fs, level, name)
            case None => forall i: nat :: i < |fs| ==> !Matches(fs, i, parent, name)
            case Some(u) => exists i: nat :: FirstMatch(fs, i, parent, name) && fs[i].uid == u
  {
    LevelSearch(fs, |fs|, parent, name);
    assert fs[..|fs|] == fs;
  }

  // ---------- the walk down ----------

  /** The entries lead down from the top, one for every part, each the first match below the one before. */
  predicate Leads(fs: seq<Folder>, parts: seq<string>, steps: seq<nat>): (r: bool)
    ensures r ==> |steps| == |parts| && forall k :: 0 <= k < |steps| ==> steps[k] < |fs|
  {
    if parts == [] then steps == []
    else
      var n := |parts| - 1;
      |steps| == |parts| && Leads(fs, parts[..n], steps[..n]) &&
      FirstMatch(fs, steps[n], Bottom(fs, steps[..n]), parts[n])
  }

  /** The folder of the last entry; none at the top. */
  function Bottom(fs: seq<Folder>, steps: seq<nat>): Option<string>
    requires steps != [] ==> steps[|steps| - 1] < |fs|
  {
    if steps == [] then None else Some(fs[steps[|steps| - 1]].uid)
  }

  lemma LeadsGrows(fs: seq<Folder>, parts: seq<string>, steps: seq<nat>, name: string, i: nat)
    requires Leads(fs, parts, steps) && FirstMatch(fs, i, Bottom(fs, steps), name)
    ensures Leads(fs, parts + [name], steps + [i])
  {
    assert (parts + [name])[..|parts|] == parts && (steps + [i])[..|parts|] == steps;
  }

  lemma FirstOnce(fs: seq<Folder>, i: nat, j: nat, parent: Option<string>, name: string)
    requires FirstMatch(fs, i, parent, name) && FirstMatch(fs, j, parent, name)
    ensures i == j
  {
  }

  /** The components lead somewhere in one way at most. */
  lemma {:induction false} LeadsOnce(fs: seq<Folder>, parts: seq<string>, a: seq<nat>, b: seq<nat>)
    requires Leads(fs, parts, a) && Leads(fs, parts, b)
    ensures a == b
  {
    if parts != [] {
      var n := |parts| - 1;
      LeadsOnce(fs, parts[..n], a[..n], b[..n]);
      FirstOnce(fs, a[n], b[n], Bottom(fs, a[..n]), parts[n]);
      assert a == a[..n] + [a[n]] && b == b[..n] + [b[n]];
    }
  }

  lemma {:induction false} LeadsPrefix(fs: seq<Folder>, parts: seq<string>, steps: seq<nat>, m: nat)
    requires m <= |parts| && Leads(fs, parts, steps)
    ensures Leads(fs, parts[..m], steps[..m])
    decreases |parts|
  {
    if m < |parts| {
      var n := |parts| - 1;
      LeadsPrefix(fs, parts[..n], steps[..n], m);
      assert parts[..n][..m] == parts[..m] && steps[..n][..m] == steps[..m];
    } else {
      assert parts[..m] == parts && steps[..m] == steps;
    }
  }

  /** No entry there matches. */
  predicate NoneBelow(fs: seq<Folder>, parent: Option<string>, name: string) {
    forall i: nat :: i < |fs| ==> !Matches(fs, i, parent, name)
  }

  function Candidates(fs: seq<Folder>, parent: Option<string>): seq<string> {
    match parent
    case None => Roots(fs)
    case Some(p) => Kids(fs, p)
  }

  lemma OneLevel(fs: seq<Folder>, parent: Option<string>, name: string) returns (i: nat)
    ensures match FirstNamed(fs, Candidates(fs, parent), name)
            case None => NoneBelow(fs, parent, name)
            case Some(u) => FirstMatch(fs, i, parent, name) && fs[i].uid == u
  {
    LevelFirst(fs, parent, name);
    i := 0;
    var found := FirstNamed(fs, Candidates(fs, parent), name);
    if found.Some? {
      i :| FirstMatch(fs, i, parent, name) && fs[i].uid == found.value;
    }
  }

  lemma LookupStep(fs: seq<Folder>, parts: seq<string>)
    requires parts != []
    ensures var n := |parts| - 1;
            if n == 0 then Lookup(fs, parts) == FirstNamed(fs, Candidates(fs, None), parts[0])
            else
              match Lookup(fs, parts[..n])
              case None => Lookup(fs, parts) == None
              case Some(p) => Lookup(fs, parts) == FirstNamed(fs, Candidates(fs, Some(p)), parts[n])
  {
  }

  /** A lookup that succeeds is led down by entries. */
  lemma {:induction false} FoundLeads(fs: seq<Folder>, parts: seq<string>) returns (steps: seq<nat>)
    requires parts != [] && Lookup(fs, parts).Some?
    ensures Leads(fs, parts, steps) && Bottom(fs, steps) == Lookup(fs, parts)
  {
    var n := |parts| - 1;
    LookupStep(fs, parts);
    assert parts == parts[..n] + [parts[n]];
    steps := [];
    if n > 0 {
      steps := FoundLeads(fs, parts[..n]);
    }
    var i := OneLevel(fs, Bottom(fs, steps), parts[n]);
    LeadsGrows(fs, parts[..n], steps, parts[n], i);
    steps := steps + [i];
  }

  /** The components lead down to a point below which nothing matches the next one. */
  predicate StuckAt(fs: seq<Folder>, parts: seq<string>, m: nat, steps: seq<nat>) {
    m < |parts| && Leads(fs, parts[..m], steps) && NoneBelow(fs, Bottom(fs, steps), parts[m])
  }

  /** One that fails is led down to where it fails. */
  lemma {:induction false} MissLeads(fs: seq<Folder>, parts: seq<string>) returns (steps: seq<nat>)
    requires parts != [] && Lookup(fs, parts).None?
    ensures StuckAt(fs, parts, MissAt(fs, parts), steps)
  {
    var n := |parts| - 1;
    LookupStep(fs, parts);
    steps := [];
    if n > 0 && Lookup(fs, parts[..n]).None? {
      steps := MissLeads(fs, parts[..n]);
      var m := MissAt(fs, parts[..n]);
      assert parts[..n][..m] == parts[..m] && parts[..n][m] == parts[m];
    } else {
      assert parts[..0] == [];
      if n > 0 {
        steps := FoundLeads(fs, parts[..n]);
      }
      var _ := OneLevel(fs, Bottom(fs, steps), parts[n]);
    }
  }

  lemma EmptyHasNone(path: string)
    ensures path == "" ==> Components(path) == []
  {
  }

  /** Components that lead somewhere are stuck nowhere. */
  lemma NotStuck(fs: seq<Folder>, parts: seq<string>, steps: seq<nat>, m: nat, upTo: seq<nat>)
    requires Leads(fs, parts, steps) && m < |parts| && Leads(fs, parts[..m], upTo)
    ensures !NoneBelow(fs, Bottom(fs, upTo), parts[m])
  {
    LeadsPrefix(fs, parts, steps, m + 1);
    var a, s := parts[..m + 1], steps[..m + 1];
    assert a[..m] == parts[..m] && s[..m] == steps[..m];
    LeadsOnce(fs, parts[..m], s[..m], upTo);
    FirstMatches(fs, s[m], Bottom(fs, upTo), parts[m]);
  }

  lemma FirstMatches(fs: seq<Folder>, i: nat, parent: Option<string>, name: string)
    requires FirstMatch(fs, i, parent, name)
    ensures !NoneBelow(fs, parent, name)
  {
  }

  lemma OneStuck(fs: seq<Folder>, parts: seq<string>, m: nat, a: seq<nat>, n: nat, b: seq<nat>)
    requires StuckAt(fs, parts, m, a) && StuckAt(fs, parts, n, b)
    ensures m == n
  {
    if m < n {
      assert parts[..n][..m] == parts[..m] && parts[..n][m] == parts[m];
      NotStuck(fs, parts[..n], b, m, a);
    } else if n < m {
      assert parts[..m][..n] == parts[..n] && parts[..m][n] == parts[n];
      NotStuck(fs, parts[..m], a, n, b);
    }
  }

  lemma LookupIff(fs: seq<Folder>, parts: seq<string>, u: string)
    requires parts != []
    ensures Lookup(fs, parts) == Some(u) <==> exists steps :: Leads(fs, parts, steps) && Bottom(fs, steps) == Some(u)
  {
    if Lookup(fs, parts).Some? {
      var steps := FoundLeads(fs, parts);
      if other :| Leads(fs, parts, other) && Bottom(fs, other) == Some(u) {
        LeadsOnce(fs, parts, steps, other);
      }
    } else {
      var upTo := MissLeads(fs, parts);
      if other :| Leads(fs, parts, other) && Bottom(fs, other) == Some(u) {
        NotStuck(fs, parts, other, MissAt(fs, parts), upTo);
      }
    }
  }

  ghost predicate Stuck(fs: seq<Folder>, parts: seq<string>, m: nat) {
    exists steps :: StuckAt(fs, parts, m, steps)
  }

  lemma MissIff(fs: seq<Folder>, parts: seq<string>, m: nat)
    requires parts != []
    ensures Lookup(fs, parts).None? && MissAt(fs, parts) == m <==> Stuck(fs, parts, m)
  {
    if steps :| StuckAt(fs, parts, m, steps) {
      if Lookup(fs, parts).Some? {
        var down := FoundLeads(fs, parts);
        NotStuck(fs, parts, down, m, steps);
      } else {
        var upTo := MissLeads(fs, parts);
        OneStuck(fs, parts, m, steps, MissAt(fs, parts), upTo);
      }
    }
    if Lookup(fs, parts).None? {
      var upTo := MissLeads(fs, parts);
    }
  }

  /** A path resolves to a folder exactly if its non-empty components lead down to an entry of that folder: at every
      level the first entry, in list order, that stands below the one before and whose folder bears the name. */
  lemma ResolvesIff(fs: seq<Folder>, path: string, u: string)
    ensures var parts := Components(path);
            Resolve(fs, path) == Found(u) <==>
            parts != [] && exists steps :: Leads(fs, parts, steps) && Bottom(fs, steps) == Some(u)
  {
    EmptyHasNone(path);
    if Components(path) != [] {
      LookupIff(fs, Components(path), u);
    }
  }

  /** And it fails for the reason given: it is empty, it has no components, or the components up to some point lead down
      and nothing below matches the next one. */
  lemma FailsIff(fs: seq<Folder>, path: string, e: ResolveError)
    ensures var parts := Components(path);
            Resolve(fs, path) == Failed(e) <==>
            match e
            case EmptyPath => path == ""
            case InvalidPath(shown) => path != "" && parts == [] && shown == ""
            case NotFound(attempted, part) =>
              exists m: nat :: Stuck(fs, parts, m) && attempted == JoinSlash(parts[..m + 1]) && part == parts[m]
  {
    var parts := Components(path);
    EmptyHasNone(path);
    if parts == [] {
      OnlySlashes(path);
    } else {
      if Lookup(fs, parts).None? {
        MissIff(fs, parts, MissAt(fs, parts));
      }
      forall m: nat | Stuck(fs, parts, m) ensures Lookup(fs, parts).None? && MissAt(fs, parts) == m {
        MissIff(fs, parts, m);
      }
    }
  }

  /** A path without components is made of slashes. */
  lemma OnlySlashes(path: string)
    requires Components(path) == []
    ensures TrimSlash(path) == ""
  {
    ComponentsTrim(path);
    var s := TrimSlash(path);
    if s != "" {
      TrimmedEnds(TrimLeft(path));
      LastPart(s);
    }
  }

  lemma {:induction false} TrimmedEnds(s: string)
    ensures TrimRight(s) != "" ==> TrimRight(s)[|TrimRight(s)| - 1] != '/'
  {
    if s != [] && s[|s| - 1] == '/' {
      TrimmedEnds(s[..|s| - 1]);
    }
  }

  lemma {:induction false} LastPart(s: string)
    requires s != "" && s[|s| - 1] != '/'
    ensures Components(s) != []
  {
    if |s| == 1 {
      ComponentsOfOne(s);
    } else {
      LastPart(s[1..]);
      if s[0] == '/' {
        assert s == "/" + s[1..];
        OuterSlash(s[1..]);
      } else {
        var rest := SplitSlash(s[1..]);
        assert SplitSlash(s) == [[s[0]] + rest[0]] + rest[1..];
        assert SplitSlash(s)[0] in SplitSlash(s) && SplitSlash(s)[0] != "";
      }
    }
  }

  // ---------- the walk up ----------

  /** The last entry of the UID that names a listed parent names this one. */
  predicate ParentIs(fs: seq<Folder>, u: string, p: string) {
    exists i: nat :: i < |fs| && fs[i].uid == u && Under(fs, i, Some(p)) &&
      forall j: nat :: i < j < |fs| && fs[j].uid == u ==> Under(fs, j, None)
  }

  /** No entry of the UID names a listed parent. */
  predicate Topmost(fs: seq<Folder>, u: string) {
    forall i: nat :: i < |fs| && fs[i].uid == u ==> Under(fs, i, None)
  }

  /** The folders on the way from the top down to the last of them. */
  predicate WayTo(fs: seq<Folder>, us: seq<string>) {
    us != [] &&
    var n := |us| - 1;
    Listed(fs, us[n]) &&
    if n == 0 then Topmost(fs, us[0]) else ParentIs(fs, us[n], us[n - 1]) && WayTo(fs, us[..n])
  }

  lemma {:induction false} ParentUpTo(fs: seq<Folder>, k: nat, u: string)
    requires k <= |fs|
    ensures match ParentOf(Uids(fs), fs[..k], u)
            case None => forall i: nat :: i < k && fs[i].uid == u ==> Under(fs, i, None)
            case Some(p) =>
              exists i: nat :: i < k && fs[i].uid == u && Under(fs, i, Some(p)) &&
                forall j: nat :: i < j < k && fs[j].uid == u ==> Under(fs, j, None)
  {
    if k > 0 {
      var n := k - 1;
      assert fs[..k][..n] == fs[..n];
      ParentUpTo(fs, n, u);
      UnderIff(fs, n, None);
      UnderIff(fs, n, Some(fs[n].parentUid));
    }
  }

  lemma ParentIff(fs: seq<Folder>, u: string)
    ensures Par(fs, u) == None <==> Topmost(fs, u)
    ensures forall p :: Par(fs, u) == Some(p) <==> ParentIs(fs, u, p)
  {
    ParentUpTo(fs, |fs|, u);
    assert fs[..|fs|] == fs;
    forall p | ParentIs(fs, u, p) ensures Par(fs, u) == Some(p) {
      var i: nat :| i < |fs| && fs[i].uid == u && Under(fs, i, Some(p)) &&
                    forall j: nat :: i < j < |fs| && fs[j].uid == u ==> Under(fs, j, None);
      OnlyOneParent(fs, u, i, p);
    }
  }

  lemma OnlyOneParent(fs: seq<Folder>, u: string, i: nat, p: string)
    requires i < |fs| && fs[i].uid == u && Under(fs, i, Some(p))
    requires forall j: nat :: i < j < |fs| && fs[j].uid == u ==> Under(fs, j, None)
    ensures !Topmost(fs, u) && forall q :: ParentIs(fs, u, q) ==> q == p
  {
  }

  lemma {:induction false} WayHasLength(fs: seq<Folder>, us: seq<string>)
    requires WayTo(fs, us)
    ensures ChainLength(fs, us[|us| - 1], |us|)
  {
    var n := |us| - 1;
    ListedIff(fs, us[n]);
    ParentIff(fs, us[n]);
    if n > 0 {
      WayHasLength(fs, us[..n]);
    }
  }

  lemma {:induction false} LengthHasWay(fs: seq<Folder>, u: string, n: nat) returns (us: seq<string>)
    requires ChainLength(fs, u, n)
    ensures WayTo(fs, us) && us[|us| - 1] == u && |us| == n
    decreases n
  {
    ListedIff(fs, u);
    ParentIff(fs, u);
    if n == 1 {
      us := [u];
    } else {
      var before := LengthHasWay(fs, Par(fs, u).value, n - 1);
      us := before + [u];
      assert us[..n - 1] == before;
    }
  }

  lemma LastOnWay(fs: seq<Folder>, us: seq<string>)
    requires WayTo(fs, us)
    ensures us[|us| - 1] in Uids(fs)
    ensures Par(fs, us[|us| - 1]) == if |us| == 1 then None else Some(us[|us| - 2])
  {
    ListedIff(fs, us[|us| - 1]);
    ParentIff(fs, us[|us| - 1]);
  }

  predicate AllBear(fs: seq<Folder>, us: seq<string>, names: seq<string>) {
    |names| == |us| && forall k :: 0 <= k < |us| ==> Bears(fs, us[k], names[k])
  }

  lemma {:induction false} NamesOnWay(fs: seq<Folder>, us: seq<string>, names: seq<string>)
    requires WayTo(fs, us) && AllBear(fs, us, names) && ChainLength(fs, us[|us| - 1], |us|)
    ensures PathNames(fs, us[|us| - 1], |us|) == names
  {
    var n := |us| - 1;
    LastOnWay(fs, us);
    BearsIff(fs, us[n], names[n]);
    assert names == names[..n] + [names[n]];
    if n > 0 {
      FewerBear(fs, us, names);
      WayHasLength(fs, us[..n]);
      NamesOnWay(fs, us[..n], names[..n]);
    }
  }

  lemma FewerBear(fs: seq<Folder>, us: seq<string>, names: seq<string>)
    requires us != [] && AllBear(fs, us, names)
    ensures AllBear(fs, us[..|us| - 1], names[..|us| - 1])
  {
  }

  /** The walk up ends exactly for folders to which a way leads from the top, by the parents their last entries name. */
  lemma EndsIffWay(fs: seq<Folder>, u: string)
    ensures FiniteChain(fs, u) <==> exists us :: WayTo(fs, us) && us[|us| - 1] == u
  {
    if FiniteChain(fs, u) {
      var n: nat :| ChainLength(fs, u, n);
      var us := LengthHasWay(fs, u, n);
    }
    if us :| WayTo(fs, us) && us[|us| - 1] == u {
      WayHasLength(fs, us);
    }
  }

  /** The path of such a folder is made of the names on the way. */
  lemma PathIs(fs: seq<Folder>, us: seq<string>, names: seq<string>)
    requires WayTo(fs, us) && AllBear(fs, us, names)
    ensures FiniteChain(fs, us[|us| - 1]) && PathOf(fs, us[|us| - 1]) == JoinSlash(names)
  {
    var u := us[|us| - 1];
    WayHasLength(fs, us);
    NamesOnWay(fs, us, names);
    var n: nat :| ChainLength(fs, u, n) && NamesTo(fs, u) == PathNames(fs, u, n);
    ChainUnique(fs, u, n, |us|);
  }
}
