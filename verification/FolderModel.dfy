/** What a flat folder list means as a tree, stated on values. */
module FolderModel {
  import opened Text

  datatype Folder = Folder(uid: string, parentUid: string, name: string)

  datatype ResolveError = EmptyPath | InvalidPath(path: string) | NotFound(attempted: string, part: string)

  datatype Resolved = Found(uid: string) | Failed(error: ResolveError)

  function Uids(fs: seq<Folder>): set<string> {
    set f | f in fs :: f.uid
  }

  predicate DistinctUids(fs: seq<Folder>) {
    forall i, j :: 0 <= i < j < |fs| ==> fs[i].uid != fs[j].uid
  }

  /** The entry names a parent, and that parent is among the known folders. */
  predicate HasParent(known: set<string>, f: Folder) {
    f.parentUid != "" && f.parentUid in known
  }

  /** The name kept for a UID: the last entry of that UID wins. */
  function NameOf(fs: seq<Folder>, u: string): string {
    if fs == [] then ""
    else if fs[|fs| - 1].uid == u then fs[|fs| - 1].name
    else NameOf(fs[..|fs| - 1], u)
  }

  /** The entries without a known parent, in list order. */
  function RootUids(known: set<string>, fs: seq<Folder>): seq<string> {
    if fs == [] then []
    else
      var last := fs[|fs| - 1];
      RootUids(known, fs[..|fs| - 1]) + if HasParent(known, last) then [] else [last.uid]
  }

  /** The entries whose known parent is `p`, in list order. */
  function ChildUids(known: set<string>, fs: seq<Folder>, p: string): seq<string> {
    if fs == [] then []
    else
      var last := fs[|fs| - 1];
      ChildUids(known, fs[..|fs| - 1], p) + if HasParent(known, last) && last.parentUid == p then [last.uid] else []
  }

  /** The known parent of the last entry of UID `u` that has one. */
  function ParentOf(known: set<string>, fs: seq<Folder>, u: string): Option<string> {
    if fs == [] then None
    else
      var last := fs[|fs| - 1];
      if last.uid == u && HasParent(known, last) then Some(last.parentUid)
      else ParentOf(known, fs[..|fs| - 1], u)
  }

  function Roots(fs: seq<Folder>): seq<string> {
    RootUids(Uids(fs), fs)
  }

  function Kids(fs: seq<Folder>, p: string): seq<string> {
    ChildUids(Uids(fs), fs, p)
  }

  function Par(fs: seq<Folder>, u: string): Option<string> {
    ParentOf(Uids(fs), fs, u)
  }

  /** The first candidate that bears the name. */
  function FirstNamed(fs: seq<Folder>, candidates: seq<string>, name: string): (r: Option<string>)
    ensures r.Some? ==> r.value in candidates && NameOf(fs, r.value) == name
    ensures r.None? ==> forall u :: u in candidates ==> NameOf(fs, u) != name
  {
    if candidates == [] then None
    else if NameOf(fs, candidates[0]) == name then Some(candidates[0])
    else FirstNamed(fs, candidates[1..], name)
  }

  /** The folder a list of components leads to: the first match at every level, no backtracking. */
  function Lookup(fs: seq<Folder>, parts: seq<string>): Option<string>
    requires parts != []
  {
    var n := |parts| - 1;
    if n == 0 then FirstNamed(fs, Roots(fs), parts[0])
    else
      match Lookup(fs, parts[..n])
      case None => None
      case Some(p) => FirstNamed(fs, Kids(fs, p), parts[n])
  }

  /** The level at which a lookup that fails first fails. */
  function MissAt(fs: seq<Folder>, parts: seq<string>): (i: nat)
    requires parts != [] && Lookup(fs, parts).None?
    ensures i < |parts|
  {
    var n := |parts| - 1;
    if n == 0 || Lookup(fs, parts[..n]).Some? then n else MissAt(fs, parts[..n])
  }

  function ResolveParts(fs: seq<Folder>, parts: seq<string>): Resolved
    requires parts != []
  {
    match Lookup(fs, parts)
    case Some(u) => Found(u)
    case None =>
      var i := MissAt(fs, parts);
      Failed(NotFound(JoinSlash(parts[..i + 1]), parts[i]))
  }

  function Resolve(fs: seq<Folder>, path: string): Resolved {
    var parts := Components(path);
    if path == "" then Failed(EmptyPath)
    else if parts == [] then Failed(InvalidPath(TrimSlash(path)))
    else ResolveParts(fs, parts)
  }

  /** A lookup that fails on a prefix fails on the whole, and at the same level. */
  lemma {:induction false} MissExtends(fs: seq<Folder>, parts: seq<string>, k: nat)
    requires 0 < k <= |parts| && Lookup(fs, parts[..k]).None?
    ensures Lookup(fs, parts).None? && MissAt(fs, parts) == MissAt(fs, parts[..k])
    decreases |parts|
  {
    if k == |parts| {
      assert parts[..k] == parts;
    } else {
      var init := parts[..|parts| - 1];
      assert init[..k] == parts[..k];
      MissExtends(fs, init, k);
    }
  }

  /** The candidates among which component `i` is sought, once the components before it are found. */
  function LevelAt(fs: seq<Folder>, parts: seq<string>, i: nat): Option<seq<string>>
    requires i < |parts|
  {
    if i == 0 then Some(Roots(fs))
    else
      match Lookup(fs, parts[..i])
      case None => None
      case Some(p) => Some(Kids(fs, p))
  }

  lemma PrefixStep(fs: seq<Folder>, parts: seq<string>, i: nat)
    requires i < |parts| && LevelAt(fs, parts, i).Some?
    ensures Lookup(fs, parts[..i + 1]) == FirstNamed(fs, LevelAt(fs, parts, i).value, parts[i])
  {
    assert parts[..i + 1][..i] == parts[..i];
  }

  lemma LevelMisses(fs: seq<Folder>, parts: seq<string>, i: nat)
    requires i < |parts| && LevelAt(fs, parts, i).Some? && FirstNamed(fs, LevelAt(fs, parts, i).value, parts[i]).None?
    ensures Lookup(fs, parts).None? && MissAt(fs, parts) == i
  {
    PrefixStep(fs, parts, i);
    MissExtends(fs, parts, i + 1);
    assert parts[..i + 1][..i] == parts[..i];
    MissHere(fs, parts[..i + 1], i);
  }

  lemma LevelHits(fs: seq<Folder>, parts: seq<string>, i: nat)
    requires i < |parts| && LevelAt(fs, parts, i).Some? && FirstNamed(fs, LevelAt(fs, parts, i).value, parts[i]).Some?
    ensures var hit := FirstNamed(fs, LevelAt(fs, parts, i).value, parts[i]);
            if i == |parts| - 1 then Lookup(fs, parts) == hit
            else LevelAt(fs, parts, i + 1) == Some(Kids(fs, hit.value))
  {
    PrefixStep(fs, parts, i);
    if i == |parts| - 1 {
      assert parts[..i + 1] == parts;
    }
  }

  lemma MissHere(fs: seq<Folder>, upTo: seq<string>, i: nat)
    requires |upTo| == i + 1 && Lookup(fs, upTo).None? && LevelAt(fs, upTo, i).Some?
    ensures MissAt(fs, upTo) == i
  {
  }

  /** What the descent from component `i` on comes to, the candidates for it being given. */
  function DescendFrom(fs: seq<Folder>, candidates: seq<string>, parts: seq<string>, i: nat): Resolved
    requires i < |parts|
    decreases |parts| - i
  {
    match FirstNamed(fs, candidates, parts[i])
    case None => Failed(NotFound(JoinSlash(parts[..i + 1]), parts[i]))
    case Some(u) => if i == |parts| - 1 then Found(u) else DescendFrom(fs, Kids(fs, u), parts, i + 1)
  }

  lemma {:induction false} DescentResolves(fs: seq<Folder>, parts: seq<string>, i: nat)
    requires i < |parts| && LevelAt(fs, parts, i).Some?
    ensures DescendFrom(fs, LevelAt(fs, parts, i).value, parts, i) == ResolveParts(fs, parts)
    decreases |parts| - i
  {
    if FirstNamed(fs, LevelAt(fs, parts, i).value, parts[i]).None? {
      LevelMisses(fs, parts, i);
    } else {
      LevelHits(fs, parts, i);
      if i < |parts| - 1 {
        DescentResolves(fs, parts, i + 1);
      }
    }
  }

  /** `u` has a chain of exactly `n` folders up to one without a parent. */
  ghost predicate ChainLength(fs: seq<Folder>, u: string, n: nat)
    decreases n
  {
    u in Uids(fs) && n > 0 &&
    match Par(fs, u)
    case None => n == 1
    case Some(p) => ChainLength(fs, p, n - 1)
  }

  /** The Parent chain of `u` ends. */
  ghost predicate FiniteChain(fs: seq<Folder>, u: string) {
    exists n: nat :: ChainLength(fs, u, n)
  }

  /** The names along the chain, from the top folder down to `u`. */
  ghost function PathNames(fs: seq<Folder>, u: string, n: nat): (names: seq<string>)
    requires ChainLength(fs, u, n)
    ensures |names| == n
    decreases n
  {
    if n == 1 then [NameOf(fs, u)] else PathNames(fs, Par(fs, u).value, n - 1) + [NameOf(fs, u)]
  }

  lemma {:induction false} ChainUnique(fs: seq<Folder>, u: string, m: nat, n: nat)
    requires ChainLength(fs, u, m) && ChainLength(fs, u, n)
    ensures m == n
    decreases m
  {
    if m > 1 && n > 1 {
      ChainUnique(fs, Par(fs, u).value, m - 1, n - 1);
    }
  }

  ghost function NamesTo(fs: seq<Folder>, u: string): seq<string>
    requires FiniteChain(fs, u)
  {
    var n: nat :| ChainLength(fs, u, n);
    PathNames(fs, u, n)
  }

  /** The full path of a folder. */
  ghost function PathOf(fs: seq<Folder>, u: string): string
    requires FiniteChain(fs, u)
  {
    JoinSlash(NamesTo(fs, u))
  }

  /** The folder reached from `u` after `n` steps along Parent, if the walk has not ended before. */
  function WalkUp(fs: seq<Folder>, u: string, n: nat): Option<string> {
    if n == 0 then Some(u)
    else
      match WalkUp(fs, u, n - 1)
      case None => None
      case Some(w) => Par(fs, w)
  }

  /** One more entry adds its UID and decides that UID's name. */
  lemma StepFacts(fs: seq<Folder>, i: nat)
    requires i < |fs|
    ensures fs[..i + 1] == fs[..i] + [fs[i]]
    ensures Uids(fs[..i + 1]) == Uids(fs[..i]) + {fs[i].uid}
    ensures forall u :: NameOf(fs[..i + 1], u) == if u == fs[i].uid then fs[i].name else NameOf(fs[..i], u)
    ensures fs[i].uid in Uids(fs)
  {
    var a, b := fs[..i + 1], fs[..i];
    assert a == b + [fs[i]] && a[..|a| - 1] == b && a[|a| - 1] == fs[i];
    assert forall u :: NameOf(a, u) == if u == fs[i].uid then fs[i].name else NameOf(b, u);
    assert forall f :: f in a <==> f in b || f == fs[i];
    assert fs[i] in fs;
  }

  /** What one more entry adds to the lists and to the Parent of `u`. */
  lemma EntryFacts(known: set<string>, done: seq<Folder>, f: Folder, u: string)
    ensures var next := done + [f];
            RootUids(known, next) == RootUids(known, done) + (if HasParent(known, f) then [] else [f.uid]) &&
            ChildUids(known, next, u) == ChildUids(known, done, u) +
              (if HasParent(known, f) && f.parentUid == u then [f.uid] else []) &&
            ParentOf(known, next, u) == if f.uid == u && HasParent(known, f) then Some(f.parentUid)
              else ParentOf(known, done, u)
  {
    var next := done + [f];
    assert next[..|next| - 1] == done && next[|next| - 1] == f;
  }
}
