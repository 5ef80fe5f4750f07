/** `FileStructure`: the tree that mirrors a directory hierarchy, and the two
    queries over it.

    The tree is the immutable value `Node`. `NLNodes` covers the parent
    links, and `StructureHeap` relates the two. */
module FileStructure {
  import opened Wrappers
  import opened Entries

  /** A built tree node: its `FileObject` and its children in stored order. */
  datatype Node = Node(data: Entry, children: seq<Node>)

  /** The built structure; `getRoot()` is the `root` field. */
  datatype Structure = Structure(root: Node)

  // ---------------------------------------------------------------------
  // Building

  /** `structureHelp`: below a directory there is one child node per
      enumerated entry, in enumeration order, each built the same way. Any
      other entry stays a leaf. */
  function Build(e: Entry): (n: Node)
    decreases e
    ensures n.data == e
    ensures e.kind == Directory ==>
      |n.children| == |e.entries| &&
      forall k :: 0 <= k < |e.entries| ==> n.children[k].data == e.entries[k]
    ensures e.kind != Directory ==> n.children == []
  {
    Node(e, if e.kind == Directory then BuildSeq(e.entries) else [])
  }

  /** The nodes built for a directory's entries, one per entry and in order. */
  function BuildSeq(es: seq<Entry>): (ns: seq<Node>)
    decreases es
    ensures |ns| == |es|
    ensures forall k :: 0 <= k < |es| ==> ns[k] == Build(es[k])
  {
    if es == [] then [] else [Build(es[0])] + BuildSeq(es[1..])
  }

  /** The `FileStructure(fileObjectName)` constructor. `resolve` stands for
      `new FileObject(path)`, which may fail. On success the root holds the
      resolved entry with no parent, and only a directory root is expanded. */
  function NewStructure(fileObjectName: string, resolve: string -> Result<Entry, FileObjectError>)
    : (r: Result<Structure, FileObjectError>)
    ensures r.Failure? <==> resolve(fileObjectName).Failure?
    ensures r.Failure? ==> r.error == resolve(fileObjectName).error
    ensures r.Success? ==> r.value.root.data == resolve(fileObjectName).value
    ensures r.Success? && r.value.root.data.kind != Directory ==> r.value.root.children == []
    ensures r.Success? ==> PreOrderData(PreOrder(r.value.root)) == Walk(r.value.root.data)
    ensures r.Success? ==> r.value.root == Build(resolve(fileObjectName).value)
  {
    match resolve(fileObjectName)
    case Failure(err) => Failure(err)
    case Success(e) =>
      var root := Node(e, []);
      var s := Structure(if e.kind == Directory then Build(e) else root);
      BuildMirrorsWalk(e);
      Success(s)
  }

  // ---------------------------------------------------------------------
  // Traversal orders

  /** Every node of the tree in depth-first pre-order, children in stored order. */
  function PreOrder(n: Node): (ns: seq<Node>)
    decreases n
    ensures |ns| >= 1 && ns[0] == n
  {
    [n] + PreOrderSeq(n.children)
  }

  function PreOrderSeq(cs: seq<Node>): seq<Node>
    decreases cs
  {
    if cs == [] then [] else PreOrder(cs[0]) + PreOrderSeq(cs[1..])
  }

  /** The payloads of a sequence of nodes. */
  function PreOrderData(ns: seq<Node>): (es: seq<Entry>)
    ensures |es| == |ns| && forall k :: 0 <= k < |ns| ==> es[k] == ns[k].data
  {
    seq(|ns|, k requires 0 <= k < |ns| => ns[k].data)
  }

  /** The payloads the two queries examine, in the order they examine them:
      a node, then, only if it is a directory, its children in stored order. */
  function Visited(n: Node): (es: seq<Entry>)
    decreases n
    ensures |es| >= 1 && es[0] == n.data
  {
    [n.data] + (if n.data.kind == Directory then VisitedSeq(n.children) else [])
  }

  function VisitedSeq(cs: seq<Node>): seq<Entry>
    decreases cs
  {
    if cs == [] then [] else Visited(cs[0]) + VisitedSeq(cs[1..])
  }

  /** Only directory nodes have children. */
  predicate WellFormed(n: Node)
    decreases n
  {
    (n.data.kind != Directory ==> n.children == []) && WellFormedSeq(n.children)
  }

  predicate WellFormedSeq(cs: seq<Node>)
    decreases cs
  {
    cs == [] || (WellFormed(cs[0]) && WellFormedSeq(cs[1..]))
  }

  // ---------------------------------------------------------------------
  // What the queries look for

  /** A file whose absolute path ends with `t`. */
  predicate OfType(e: Entry, t: string)
  {
    e.kind == File && EndsWith(e.longName, t)
  }

  /** The absolute paths of the entries of type `t`, in the order given. */
  function FilePaths(es: seq<Entry>, t: string): seq<string>
  {
    if es == [] then []
    else (if OfType(es[0], t) then [es[0].longName] else []) + FilePaths(es[1..], t)
  }

  /** A file whose short name is `name`, with a non-empty absolute path. A
      match with an empty path cannot be told apart from "not found", so
      `findFile` does not stop there. */
  predicate Found(e: Entry, name: string)
  {
    e.kind == File && e.name == name && e.longName != ""
  }

  /** The position of the first entry `Found` for `name`, or `|es|`. */
  function FirstFound(es: seq<Entry>, name: string): (i: nat)
    ensures i <= |es|
    ensures i < |es| ==> Found(es[i], name)
    ensures forall j :: 0 <= j < i ==> !Found(es[j], name)
  {
    if es == [] then 0
    else if Found(es[0], name) then 0
    else 1 + FirstFound(es[1..], name)
  }

  /** What `findFile` returns for a walk: the path of the first entry
      `Found`, or the empty string. */
  function FoundPath(es: seq<Entry>, name: string): string
  {
    var i := FirstFound(es, name);
    if i < |es| then es[i].longName else ""
  }

  // ---------------------------------------------------------------------
  // The queries

  /** `filesOfType(type)`: gathers the matching paths from the root. */
  method FilesOfType(s: Structure, t: string) returns (names: seq<string>)
    ensures names == FilePaths(Visited(s.root), t)
    ensures forall p :: p in names <==> exists e :: e in Visited(s.root) && OfType(e, t) && e.longName == p
  {
    names := FileTypeHelp(s.root, t, []);
    FilePathsMembers(Visited(s.root), t);
  }

  /** `fileTypeHelp`: adds to `acc` the path of `r` if it is a file of type
      `t`, or, if `r` is a directory, the matching paths below each child in
      turn. */
  method FileTypeHelp(r: Node, t: string, acc: seq<string>) returns (names: seq<string>)
    decreases r
    ensures names == acc + FilePaths(Visited(r), t)
  {
    names := acc;
    if r.data.kind == File {
      if EndsWith(r.data.longName, t) {
        names := names + [r.data.longName];
      }
    } else if r.data.kind == Directory {
      var i := 0;
      while i < |r.children|
        invariant 0 <= i <= |r.children|
        invariant names == acc + FilePaths(VisitedSeq(r.children[..i]), t)
      {
        names := FileTypeHelp(r.children[i], t, names);
        VisitedSeqSnoc(r.children, i);
        FilePathsAppend(VisitedSeq(r.children[..i]), Visited(r.children[i]), t);
        i := i + 1;
      }
      assert r.children[..i] == r.children;
      FilePathsAppend([r.data], VisitedSeq(r.children), t);
    }
  }

  /** `findFile(name)`: the path of the first file named `name` in the walk,
      or `""`. */
  method FindFile(s: Structure, name: string) returns (path: string)
    ensures path == FoundPath(Visited(s.root), name)
    ensures path == "" <==> forall e :: e in Visited(s.root) ==> !Found(e, name)
  {
    ghost var calls;
    path, calls := FinderHelper(s.root, name);
  }

  /** `finderHelper`: returns `r`'s path if `r` is a file named `name`;
      otherwise, for a directory, searches the children in order and returns
      the first non-empty answer. The ghost `calls` counts the nodes examined. The
      search ends at the first entry `Found`, so only the walk up to it is
      examined. */
  method FinderHelper(r: Node, name: string) returns (path: string, ghost calls: nat)
    decreases r
    ensures path == FoundPath(Visited(r), name)
    ensures calls == (if FirstFound(Visited(r), name) < |Visited(r)|
                      then FirstFound(Visited(r), name) + 1 else |Visited(r)|)
  {
    calls := 1;
    if r.data.kind == File {
      if r.data.name == name {
        return r.data.longName, 1;
      }
    } else if r.data.kind == Directory {
      var i := 0;
      while i < |r.children|
        invariant 0 <= i <= |r.children|
        invariant FirstFound(VisitedSeq(r.children[..i]), name) == |VisitedSeq(r.children[..i])|
        invariant calls == 1 + |VisitedSeq(r.children[..i])|
      {
        var p, c := FinderHelper(r.children[i], name);
        if p != "" {
          FoundInChild(r, i, name);
          return p, calls + c;
        }
        calls := calls + c;
        VisitedSeqSnoc(r.children, i);
        FirstFoundAppend(VisitedSeq(r.children[..i]), Visited(r.children[i]), name);
        i := i + 1;
      }
      assert r.children[..i] == r.children;
      FirstFoundAppend([r.data], VisitedSeq(r.children), name);
    }
    path := "";
  }

  // ---------------------------------------------------------------------
  // Lemmas

  /** When nothing before child `i` of a directory is `Found` and something
      in child `i` is, the directory's first match is that one. */
  lemma {:induction false} FoundInChild(r: Node, i: nat, name: string)
    requires r.data.kind == Directory && i < |r.children|
    requires FirstFound(VisitedSeq(r.children[..i]), name) == |VisitedSeq(r.children[..i])|
    requires FirstFound(Visited(r.children[i]), name) < |Visited(r.children[i])|
    ensures FirstFound(Visited(r), name) ==
      1 + |VisitedSeq(r.children[..i])| + FirstFound(Visited(r.children[i]), name)
    ensures FoundPath(Visited(r), name) == FoundPath(Visited(r.children[i]), name)
  {
    var pre := VisitedSeq(r.children[..i]);
    var mid := Visited(r.children[i]);
    var post := VisitedSeq(r.children[i + 1..]);
    VisitedAround(r, i);
    FirstFoundAppend([r.data], pre, name);
    FirstFoundMiddle([r.data] + pre, mid, post, name);
  }

  /** A directory's visit, cut around its child `i`. */
  lemma {:induction false} VisitedAround(r: Node, i: nat)
    requires r.data.kind == Directory && i < |r.children|
    ensures Visited(r) == ([r.data] + VisitedSeq(r.children[..i])) + Visited(r.children[i]) + VisitedSeq(r.children[i + 1..])
  {
    VisitedSeqSplit(r.children, i + 1);
    VisitedSeqSnoc(r.children, i);
  }

  /** The first match in `pre + mid + post`, when `pre` has none and `mid`
      has one, is `mid`'s. */
  lemma {:induction false} FirstFoundMiddle(pre: seq<Entry>, mid: seq<Entry>, post: seq<Entry>, name: string)
    requires FirstFound(pre, name) == |pre| && FirstFound(mid, name) < |mid|
    ensures FirstFound(pre + mid + post, name) == |pre| + FirstFound(mid, name)
    ensures FoundPath(pre + mid + post, name) == FoundPath(mid, name)
  {
    FirstFoundAppend(pre, mid, name);
    FirstFoundAppend(pre + mid, post, name);
    assert (pre + mid + post)[|pre| + FirstFound(mid, name)] == mid[FirstFound(mid, name)];
  }

  lemma {:induction false} VisitedSeqSnoc(cs: seq<Node>, i: nat)
    requires i < |cs|
    ensures VisitedSeq(cs[..i + 1]) == VisitedSeq(cs[..i]) + Visited(cs[i])
    decreases i
  {
    if i == 0 {
      assert cs[..1][1..] == [];
    } else {
      assert cs[..i + 1][1..] == cs[1..][..i];
      assert cs[..i][1..] == cs[1..][..i - 1];
      VisitedSeqSnoc(cs[1..], i - 1);
    }
  }

  lemma {:induction false} VisitedSeqSplit(cs: seq<Node>, j: nat)
    requires j <= |cs|
    ensures VisitedSeq(cs) == VisitedSeq(cs[..j]) + VisitedSeq(cs[j..])
    decreases j
  {
    if j == 0 {
      assert cs[..0] == [] && cs[0..] == cs;
    } else {
      assert cs[..j][1..] == cs[1..][..j - 1];
      assert cs[j..] == cs[1..][j - 1..];
      VisitedSeqSplit(cs[1..], j - 1);
    }
  }

  lemma {:induction false} FilePathsAppend(xs: seq<Entry>, ys: seq<Entry>, t: string)
    ensures FilePaths(xs + ys, t) == FilePaths(xs, t) + FilePaths(ys, t)
    decreases xs
  {
    if xs == [] {
      assert xs + ys == ys;
    } else {
      assert (xs + ys)[1..] == xs[1..] + ys;
      FilePathsAppend(xs[1..], ys, t);
    }
  }

  lemma {:induction false} FirstFoundAppend(xs: seq<Entry>, ys: seq<Entry>, name: string)
    ensures FirstFound(xs + ys, name) ==
      (if FirstFound(xs, name) < |xs| then FirstFound(xs, name) else |xs| + FirstFound(ys, name))
    decreases xs
  {
    if xs == [] {
      assert xs + ys == ys;
    } else {
      assert (xs + ys)[1..] == xs[1..] + ys;
      FirstFoundAppend(xs[1..], ys, name);
    }
  }

  /** `FilePaths` keeps exactly the paths of the entries of type `t`. */
  lemma {:induction false} FilePathsMembers(es: seq<Entry>, t: string)
    ensures forall p :: p in FilePaths(es, t) <==> exists e :: e in es && OfType(e, t) && e.longName == p
    decreases es
  {
    if es != [] {
      FilePathsMembers(es[1..], t);
      forall p | p in FilePaths(es, t)
        ensures exists e :: e in es && OfType(e, t) && e.longName == p
      {
        if !(OfType(es[0], t) && es[0].longName == p) {
          assert p in FilePaths(es[1..], t);
          var e :| e in es[1..] && OfType(e, t) && e.longName == p;
          assert e in es;
        }
      }
      forall p | exists e :: e in es && OfType(e, t) && e.longName == p
        ensures p in FilePaths(es, t)
      {
        var e :| e in es && OfType(e, t) && e.longName == p;
        if e != es[0] {
          assert e in es[1..];
        }
      }
    }
  }

  /** The built tree has a node for every entry reachable from the root, in
      pre-order: nothing is dropped, duplicated or reordered. */
  lemma {:induction false} BuildMirrorsWalk(e: Entry)
    ensures PreOrderData(PreOrder(Build(e))) == Walk(e)
    decreases e
  {
    var n := Build(e);
    PreOrderDataAppend([n], PreOrderSeq(n.children));
    if e.kind == Directory {
      BuildSeqMirrorsWalkSeq(e.entries);
    }
  }

  lemma {:induction false} BuildSeqMirrorsWalkSeq(es: seq<Entry>)
    ensures PreOrderData(PreOrderSeq(BuildSeq(es))) == WalkSeq(es)
    decreases es
  {
    if es != [] {
      var ns := BuildSeq(es);
      assert ns[1..] == BuildSeq(es[1..]);
      PreOrderDataAppend(PreOrder(ns[0]), PreOrderSeq(ns[1..]));
      BuildMirrorsWalk(es[0]);
      BuildSeqMirrorsWalkSeq(es[1..]);
    }
  }

  lemma {:induction false} PreOrderDataAppend(xs: seq<Node>, ys: seq<Node>)
    ensures PreOrderData(xs + ys) == PreOrderData(xs) + PreOrderData(ys)
  {
  }

  /** Every subtree of a built tree is the tree built from its own payload,
      so each node's children mirror the entries listed below its entry. */
  lemma {:induction false} BuiltSubtrees(e: Entry)
    ensures forall j :: 0 <= j < |PreOrder(Build(e))| ==> PreOrder(Build(e))[j] == Build(PreOrder(Build(e))[j].data)
    decreases e
  {
    var n := Build(e);
    var rest := PreOrderSeq(n.children);
    assert PreOrder(n) == [n] + rest;
    if e.kind == Directory {
      BuiltSeqSubtrees(e.entries);
      assert rest == PreOrderSeq(BuildSeq(e.entries));
    } else {
      assert rest == [];
    }
    forall j | 0 <= j < |PreOrder(n)|
      ensures PreOrder(n)[j] == Build(PreOrder(n)[j].data)
    {
      if j > 0 {
        assert PreOrder(n)[j] == rest[j - 1];
        assert rest[j - 1] == Build(rest[j - 1].data);
      }
    }
  }

  lemma {:induction false} BuiltSeqSubtrees(es: seq<Entry>)
    ensures forall j :: 0 <= j < |PreOrderSeq(BuildSeq(es))| ==>
      PreOrderSeq(BuildSeq(es))[j] == Build(PreOrderSeq(BuildSeq(es))[j].data)
    decreases es
  {
    if es != [] {
      var ns := BuildSeq(es);
      assert ns[1..] == BuildSeq(es[1..]);
      var first := PreOrder(ns[0]);
      var rest := PreOrderSeq(ns[1..]);
      assert PreOrderSeq(ns) == first + rest;
      BuiltSubtrees(es[0]);
      BuiltSeqSubtrees(es[1..]);
      forall j | 0 <= j < |PreOrderSeq(ns)|
        ensures PreOrderSeq(ns)[j] == Build(PreOrderSeq(ns)[j].data)
      {
        if j < |first| {
          assert PreOrderSeq(ns)[j] == first[j];
        } else {
          assert PreOrderSeq(ns)[j] == rest[j - |first|];
        }
      }
    }
  }

  /** In the built tree, only directory nodes have children. */
  lemma {:induction false} BuildWellFormed(e: Entry)
    ensures WellFormed(Build(e))
    decreases e
  {
    if e.kind == Directory {
      BuildSeqWellFormed(e.entries);
    }
  }

  lemma {:induction false} BuildSeqWellFormed(es: seq<Entry>)
    ensures WellFormedSeq(BuildSeq(es))
    decreases es
  {
    if es != [] {
      assert BuildSeq(es)[1..] == BuildSeq(es[1..]);
      BuildWellFormed(es[0]);
      BuildSeqWellFormed(es[1..]);
    }
  }

  /** Every non-directory node of a well-formed tree is a leaf, wherever it
      sits in the pre-order. */
  lemma {:induction false} WellFormedLeaves(n: Node)
    requires WellFormed(n)
    ensures forall m :: m in PreOrder(n) && m.data.kind != Directory ==> m.children == []
    decreases n
  {
    WellFormedSeqLeaves(n.children);
  }

  lemma {:induction false} WellFormedSeqLeaves(cs: seq<Node>)
    requires WellFormedSeq(cs)
    ensures forall m :: m in PreOrderSeq(cs) && m.data.kind != Directory ==> m.children == []
    decreases cs
  {
    if cs != [] {
      WellFormedLeaves(cs[0]);
      WellFormedSeqLeaves(cs[1..]);
    }
  }

  /** On a tree where only directories have children, the queries examine
      every node, in pre-order. */
  lemma {:induction false} VisitedIsPreOrder(n: Node)
    requires WellFormed(n)
    ensures Visited(n) == PreOrderData(PreOrder(n))
    decreases n
  {
    PreOrderDataAppend([n], PreOrderSeq(n.children));
    VisitedSeqIsPreOrder(n.children);
  }

  lemma {:induction false} VisitedSeqIsPreOrder(cs: seq<Node>)
    requires WellFormedSeq(cs)
    ensures VisitedSeq(cs) == PreOrderData(PreOrderSeq(cs))
    decreases cs
  {
    if cs != [] {
      PreOrderDataAppend(PreOrder(cs[0]), PreOrderSeq(cs[1..]));
      VisitedIsPreOrder(cs[0]);
      VisitedSeqIsPreOrder(cs[1..]);
    }
  }

  /** On a built structure the queries see exactly the entries reachable
      from the root, in pre-order. */
  lemma {:induction false} BuiltVisitsWalk(e: Entry)
    ensures Visited(Build(e)) == Walk(e)
  {
    BuildWellFormed(e);
    VisitedIsPreOrder(Build(e));
    BuildMirrorsWalk(e);
  }

  /** `filesOfType` on a structure built from `e`: the absolute paths of all
      files reachable from `e` that end with `t`, in pre-order. */
  lemma {:induction false} FilesOfTypeOnBuilt(e: Entry, t: string)
    ensures FilePaths(Visited(Build(e)), t) == FilePaths(Walk(e), t)
  {
    BuiltVisitsWalk(e);
  }

  /** `findFile` on a structure built from `e`: the path of the first file
      reachable from `e`, in pre-order, named `name` with a non-empty path. */
  lemma {:induction false} FindFileOnBuilt(e: Entry, name: string)
    ensures FoundPath(Visited(Build(e)), name) == FoundPath(Walk(e), name)
  {
    BuiltVisitsWalk(e);
  }
}
