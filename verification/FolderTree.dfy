/** The folder tree as the program builds and walks it, on the heap. */
module FolderTree {
  import opened Text
  import opened FolderModel

  class FolderNode {
    const UID: string
    const Name: string
    var Parent: FolderNode?
    var Children: seq<FolderNode>

    constructor (uid: string, name: string)
      ensures UID == uid && Name == name && Parent == null && Children == []
    {
      UID, Name, Parent, Children := uid, name, null, [];
    }
  }

  class FolderTree {
    var folders: map<string, FolderNode>
    var root: seq<FolderNode>

    constructor ()
      ensures folders == map[] && root == []
    {
      folders, root := map[], [];
    }

    /** The nodes are those the index holds for the UIDs, position by position. */
    ghost predicate Lists(nodes: seq<FolderNode>, us: seq<string>)
      reads this`folders
    {
      |nodes| == |us| && forall i :: 0 <= i < |us| ==> us[i] in folders && nodes[i] == folders[us[i]]
    }

    /** Every node of the index stands for its own UID, with the name kept for it. */
    ghost predicate Indexed(fs: seq<Folder>)
      reads this`folders
    {
      folders.Keys == Uids(fs) &&
      forall u :: u in folders ==> folders[u].UID == u && folders[u].Name == NameOf(fs, u)
    }

    ghost function NodeOrNull(u: Option<string>): FolderNode?
      reads this`folders
    {
      if u.Some? && u.value in folders then folders[u.value] else null
    }

    ghost predicate NodeLinked(known: set<string>, done: seq<Folder>, u: string)
      requires u in folders
      reads this`folders, folders[u]
    {
      Lists(folders[u].Children, ChildUids(known, done, u)) &&
      folders[u].Parent == NodeOrNull(ParentOf(known, done, u))
    }

    /** The pointers agree with the entries of `done`, a prefix of the list `known` comes from. */
    ghost predicate Linked(known: set<string>, done: seq<Folder>)
      reads this, folders.Values
    {
      Lists(root, RootUids(known, done)) && forall u {:trigger NodeLinked(known, done, u)} :: u in folders ==>
        NodeLinked(known, done, u)
    }

    /** The heap tree is the one the folder list describes. */
    ghost predicate Models(fs: seq<Folder>)
      reads this, folders.Values
    {
      Indexed(fs) && Linked(Uids(fs), fs)
    }

    lemma LevelsAreListed(fs: seq<Folder>, u: string)
      requires Models(fs)
      ensures Lists(root, Roots(fs))
      ensures u in folders ==> Lists(folders[u].Children, Kids(fs, u))
    {
      assert u in folders ==> NodeLinked(Uids(fs), fs, u);
    }

    method ResolvePath(path: string, ghost fs: seq<Folder>) returns (r: Resolved)
      requires Models(fs)
      ensures r == Resolve(fs, path)
    {
      if path == "" {
        return Failed(EmptyPath);
      }
      var trimmed := TrimSlash(path);
      var parts := FilterParts(SplitSlash(trimmed));
      ComponentsTrim(path);
      if |parts| == 0 {
        return Failed(InvalidPath(trimmed));
      }
      r := Descend(parts, fs);
    }

    /** The traversal loop of ResolvePath. */
    method Descend(parts: seq<string>, ghost fs: seq<Folder>) returns (r: Resolved)
      requires Models(fs) && parts != []
      ensures r == ResolveParts(fs, parts)
    {
      LevelsAreListed(fs, "");
      DescentResolves(fs, parts, 0);
      var currentNodes := root;
      ghost var us := Roots(fs);
      for i := 0 to |parts|
        invariant i < |parts| && Lists(currentNodes, us)
        invariant DescendFrom(fs, us, parts, i) == ResolveParts(fs, parts)
      {
        var found := FindChild(currentNodes, parts[i], us, fs);
        if found == null {
          return Failed(NotFound(JoinSlash(parts[..i + 1]), parts[i]));
        }
        if i == |parts| - 1 {
          return Found(found.UID);
        }
        LevelsAreListed(fs, found.UID);
        us := Kids(fs, found.UID);
        currentNodes := found.Children;
      }
      assert false;
    }

    /** The inner search of ResolvePath: the first node of a level that bears the name. */
    method FindChild(nodes: seq<FolderNode>, name: string, ghost us: seq<string>, ghost fs: seq<Folder>)
      returns (found: FolderNode?)
      requires Indexed(fs) && Lists(nodes, us)
      ensures found == null <==> FirstNamed(fs, us, name).None?
      ensures found != null ==>
                found.UID in folders && found == folders[found.UID] && FirstNamed(fs, us, name) == Some(found.UID)
    {
      for j := 0 to |nodes|
        invariant FirstNamed(fs, us, name) == FirstNamed(fs, us[j..], name)
      {
        assert us[j..][0] == us[j] && us[j..][1..] == us[j + 1..];
        if nodes[j].Name == name {
          return nodes[j];
        }
      }
      found := null;
    }

    /** The walk up has no cycle guard: it ends exactly on finite chains, which is why one is required. */
    method GetPath(folderUID: string, ghost fs: seq<Folder>) returns (path: string)
      requires Models(fs)
      requires folderUID in Uids(fs) ==> FiniteChain(fs, folderUID)
      ensures path == if folderUID in Uids(fs) then PathOf(fs, folderUID) else ""
    {
      if folderUID !in folders {
        return "";
      }
      var pathParts: seq<string> := [];
      var current: FolderNode? := folders[folderUID];
      ghost var n: nat :| ChainLength(fs, folderUID, n);
      ghost var total := PathNames(fs, folderUID, n);
      while current != null
        invariant current == null ==> pathParts == total
        invariant current != null ==>
          current.UID in folders && folders[current.UID] == current &&
          ChainLength(fs, current.UID, n) && total == PathNames(fs, current.UID, n) + pathParts
        decreases current != null, n
      {
        assert NodeLinked(Uids(fs), fs, current.UID);
        ghost var names := PathNames(fs, current.UID, n);
        pathParts := [current.Name] + pathParts;
        assert n > 1 ==> names == PathNames(fs, Par(fs, current.UID).value, n - 1) + [current.Name];
        assert n == 1 ==> names == [current.Name];
        current := current.Parent;
        n := n - 1;
      }
      ghost var m: nat :| ChainLength(fs, folderUID, m) && NamesTo(fs, folderUID) == PathNames(fs, folderUID, m);
      ChainUnique(fs, folderUID, m, |total|);
      path := JoinSlash(pathParts);
    }

    method GetNode(folderUID: string, ghost fs: seq<Folder>) returns (node: FolderNode?)
      requires Models(fs)
      ensures folderUID in Uids(fs) <==> node != null
      ensures node != null ==> node.UID == folderUID && node.Name == NameOf(fs, folderUID)
    {
      node := if folderUID in folders then folders[folderUID] else null;
    }

    /** The paths of all folders, in an arbitrary order; empty paths are dropped. */
    method ListPaths(ghost fs: seq<Folder>) returns (paths: seq<string>)
      requires Models(fs)
      requires forall u :: u in Uids(fs) ==> FiniteChain(fs, u)
      ensures ListsPathsOf(fs, paths, Uids(fs))
    {
      paths := [];
      var todo := folders.Keys;
      assert ListsPathsOf(fs, paths, {}) by {
        assert forall p :: WithPath(fs, {}, p) == {};
      }
      while todo != {}
        invariant todo <= Uids(fs)
        invariant ListsPathsOf(fs, paths, Uids(fs) - todo)
      {
        var uid :| uid in todo;
        var path := GetPath(uid, fs);
        ListsOneMore(fs, paths, Uids(fs) - todo, uid);
        assert Uids(fs) - (todo - {uid}) == Uids(fs) - todo + {uid};
        todo := todo - {uid};
        if path != "" {
          paths := paths + [path];
        }
      }
      assert Uids(fs) - todo == Uids(fs);
    }
  }

  /** The folders of `us` whose path is `p`. */
  ghost function WithPath(fs: seq<Folder>, us: set<string>, p: string): set<string>
    requires forall u :: u in us ==> FiniteChain(fs, u)
  {
    set u | u in us && PathOf(fs, u) == p
  }

  /** `paths` holds one path for each of the folders `us`, empty ones left out. */
  ghost predicate ListsPathsOf(fs: seq<Folder>, paths: seq<string>, us: set<string>)
    requires forall u :: u in us ==> FiniteChain(fs, u)
  {
    forall p :: multiset(paths)[p] == if p == "" then 0 else |WithPath(fs, us, p)|
  }

  lemma WithPathGrows(fs: seq<Folder>, us: set<string>, u: string, p: string)
    requires (forall v :: v in us ==> FiniteChain(fs, v)) && FiniteChain(fs, u) && u !in us
    ensures |WithPath(fs, us + {u}, p)| == |WithPath(fs, us, p)| + if p == PathOf(fs, u) then 1 else 0
  {
    if p == PathOf(fs, u) {
      assert WithPath(fs, us + {u}, p) == WithPath(fs, us, p) + {u};
    } else {
      assert WithPath(fs, us + {u}, p) == WithPath(fs, us, p);
    }
  }

  lemma ListsOneMore(fs: seq<Folder>, paths: seq<string>, us: set<string>, u: string)
    requires (forall v :: v in us ==> FiniteChain(fs, v)) && FiniteChain(fs, u) && u !in us &&
             ListsPathsOf(fs, paths, us)
    ensures ListsPathsOf(fs, if PathOf(fs, u) != "" then paths + [PathOf(fs, u)] else paths, us + {u})
  {
    var path := PathOf(fs, u);
    var next := if path != "" then paths + [path] else paths;
    forall p ensures multiset(next)[p] == if p == "" then 0 else |WithPath(fs, us + {u}, p)| {
      WithPathGrows(fs, us, u, p);
      assert multiset(paths)[p] == if p == "" then 0 else |WithPath(fs, us, p)|;
      assert multiset(paths + [path])[p] == multiset(paths)[p] + if p == path then 1 else 0;
    }
  }

  method BuildFolderTree(fs: seq<Folder>) returns (tree: FolderTree)
    ensures fresh(tree) && fresh(tree.folders.Values)
    ensures tree.Models(fs)
  {
    tree := new FolderTree();
    CreateNodes(tree, fs);
    for i := 0 to |fs|
      invariant fresh(tree) && fresh(tree.folders.Values)
      invariant tree.Indexed(fs) && tree.Linked(Uids(fs), fs[..i])
    {
      StepFacts(fs, i);
      LinkEntry(tree, fs[i], fs[..i]);
    }
    assert fs[..|fs|] == fs;
  }

  /** The first pass: one node per UID, the last entry of a UID replacing earlier ones. */
  method CreateNodes(tree: FolderTree, fs: seq<Folder>)
    requires tree.folders == map[] && tree.root == []
    modifies tree
    ensures fresh(tree.folders.Values)
    ensures tree.Indexed(fs) && tree.Linked(Uids(fs), [])
  {
    for i := 0 to |fs|
      invariant forall u :: u in tree.folders ==> fresh(tree.folders[u])
      invariant tree.root == [] && tree.Indexed(fs[..i])
      invariant forall n :: n in tree.folders.Values ==> n.Parent == null && n.Children == []
    {
      var node := new FolderNode(fs[i].uid, fs[i].name);
      tree.folders := tree.folders[fs[i].uid := node];
      StepFacts(fs, i);
    }
    assert fs[..|fs|] == fs;
    forall u | u in tree.folders ensures tree.NodeLinked(Uids(fs), [], u) {
    }
  }

  /** One turn of the second pass. */
  method LinkEntry(tree: FolderTree, f: Folder, ghost done: seq<Folder>)
    requires forall u :: u in tree.folders ==> tree.folders[u].UID == u
    requires tree.Linked(tree.folders.Keys, done)
    requires f.uid in tree.folders
    modifies tree`root, tree.folders.Values
    ensures tree.Linked(tree.folders.Keys, done + [f])
  {
    var node := tree.folders[f.uid];
    if f.parentUid == "" {
      tree.root := tree.root + [node];
      RootLinked(tree, f, done, old(tree.root));
    } else if f.parentUid in tree.folders {
      LinkChild(tree, f, done);
    } else {
      tree.root := tree.root + [node];
      RootLinked(tree, f, done, old(tree.root));
    }
  }

  /** The tree with one more node at the top level, all other pointers being as before. */
  lemma RootLinked(tree: FolderTree, f: Folder, done: seq<Folder>, before: seq<FolderNode>)
    requires f.uid in tree.folders && !HasParent(tree.folders.Keys, f)
    requires tree.Lists(before, RootUids(tree.folders.Keys, done)) && tree.root == before + [tree.folders[f.uid]]
    requires forall u {:trigger tree.NodeLinked(tree.folders.Keys, done, u)} :: u in tree.folders ==>
             tree.NodeLinked(tree.folders.Keys, done, u)
    ensures tree.Linked(tree.folders.Keys, done + [f])
  {
    EntryFacts(tree.folders.Keys, done, f, f.uid);
    forall u | u in tree.folders ensures tree.NodeLinked(tree.folders.Keys, done + [f], u) {
      assert tree.NodeLinked(tree.folders.Keys, done, u);
      EntryFacts(tree.folders.Keys, done, f, u);
    }
  }

  /** The turn for an entry with a known parent. */
  method LinkChild(tree: FolderTree, f: Folder, ghost done: seq<Folder>)
    requires forall u :: u in tree.folders ==> tree.folders[u].UID == u
    requires tree.Linked(tree.folders.Keys, done)
    requires f.uid in tree.folders && HasParent(tree.folders.Keys, f)
    modifies tree.folders.Values
    ensures tree.Linked(tree.folders.Keys, done + [f])
  {
    ghost var known := tree.folders.Keys;
    EntryFacts(known, done, f, f.uid);
    var node, parent := tree.folders[f.uid], tree.folders[f.parentUid];
    node.Parent := parent;
    parent.Children := parent.Children + [node];
    forall u | u in tree.folders ensures tree.NodeLinked(known, done + [f], u) {
      var n := tree.folders[u];
      assert old(tree.NodeLinked(known, done, u)) && n.UID == u;
      assert n.Children == if f.parentUid == u then old(n.Children) + [node] else old(n.Children);
      assert n.Parent == if f.uid == u then parent else old(n.Parent);
      NodeLinkedAfter(tree, f, done, u, old(n.Children));
    }
  }

  /** The pointers of one node after such an entry. */
  lemma NodeLinkedAfter(tree: FolderTree, f: Folder, done: seq<Folder>, u: string, before: seq<FolderNode>)
    requires f.uid in tree.folders && u in tree.folders && HasParent(tree.folders.Keys, f)
    requires tree.Lists(before, ChildUids(tree.folders.Keys, done, u))
    requires tree.folders[u].Children == if f.parentUid == u then before + [tree.folders[f.uid]] else before
    requires tree.folders[u].Parent ==
             if f.uid == u then tree.folders[f.parentUid] else tree.NodeOrNull(ParentOf(tree.folders.Keys, done, u))
    ensures tree.NodeLinked(tree.folders.Keys, done + [f], u)
  {
    EntryFacts(tree.folders.Keys, done, f, u);
  }
}
