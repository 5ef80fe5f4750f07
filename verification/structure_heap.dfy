/** `structureHelp` run on the node heap of `NLNodes`, as the Java code runs
    it: each enumerated entry gets a fresh node, then `addChild` and
    `setParent` attach it, then the build recurses into it.

    Nodes are allocated depth-first, so the heap built from an entry is the
    pre-order `Layout` of the functional tree `FileStructure.Build`. Through
    that layout the heap's parent and child links are proved consistent. */
module StructureHeap {
  import opened Wrappers
  import opened Entries
  import opened NLNodes
  import opened FileStructure

  // ---------------------------------------------------------------------
  // The build, step by step on the heap

  /** `structureHelp(r)` where node `r` holds entry `e`. */
  function StructureHelp(h: Heap<Entry>, r: nat, e: Entry): (h': Heap<Entry>)
    requires r < |h| && h[r].data == Some(e)
    decreases e
    ensures |h'| >= |h|
  {
    if e.kind == Directory then HelpLoop(h, r, e.entries) else h
  }

  /** The `while (fileIterator.hasNext())` loop of `structureHelp(r)` over
      the entries `es` still to come. */
  function HelpLoop(h: Heap<Entry>, r: nat, es: seq<Entry>): (h': Heap<Entry>)
    requires r < |h|
    decreases es
    ensures |h'| >= |h|
  {
    if es == [] then h
    else
      var (h1, n) := NewNode(h, Some(es[0]), Some(r));
      var h2 := AddChild(h1, r, n);
      var h3 := SetParent(h2, n, Some(r));
      var h4 := StructureHelp(h3, n, es[0]);
      HelpLoop(h4, r, es[1..])
  }

  /** The constructor on the heap: the root node at index 0 with no parent,
      then `structureHelp` if the root is a directory. */
  function BuildHeap(e: Entry): (h: Heap<Entry>)
    ensures HeapOf(h, e)
  {
    var (h0, root) := NewNode([], Some(e), None);
    var h := if e.kind == Directory then StructureHelp(h0, root, e) else h0;
    BuildHeapIsLayout(e);
    LayoutOfBuild(e);
    h
  }

  /** Heap `h` mirrors the entries reachable from `e`: one record per entry
      in pre-order, the root first and without a parent, every other record
      with a parent, consistent links, and each record listing once, in
      order, the records of the entries its directory lists. */
  ghost predicate HeapOf(h: Heap<Entry>, e: Entry)
  {
    |h| == |Walk(e)| &&
    (forall j :: 0 <= j < |h| ==> h[j].data == Some(Walk(e)[j])) &&
    h[0].parent == None &&
    (forall j :: 0 < j < |h| ==> h[j].parent.Some?) &&
    LinksConsistent(h) &&
    (forall j, k, k' :: 0 <= j < |h| && 0 <= k < k' < |h[j].children| ==> h[j].children[k] < h[j].children[k']) &&
    (forall j :: 0 <= j < |h| ==> |h[j].children| == |Listed(Walk(e)[j])|) &&
    (forall j, k :: 0 <= j < |h| && 0 <= k < |h[j].children| ==>
       h[j].children[k] < |h| && h[h[j].children[k]].data == Some(Listed(Walk(e)[j])[k]))
  }

  /** What `BuildHeap` promises, stated on the layout of the built tree. */
  lemma {:induction false} LayoutOfBuild(e: Entry)
    ensures HeapOf(Layout(Build(e), 0, None), e)
  {
    LayoutConsistent(Build(e));
    LayoutData(Build(e), 0, None);
    BuildMirrorsWalk(e);
    LayoutListsEntries(e);
  }

  // ---------------------------------------------------------------------
  // The pre-order layout of a tree

  /** The number of nodes in tree `n`. */
  function Size(n: Node): nat
    decreases n
  {
    1 + SizeSeq(n.children)
  }

  function SizeSeq(cs: seq<Node>): nat
    decreases cs
  {
    if cs == [] then 0 else Size(cs[0]) + SizeSeq(cs[1..])
  }

  lemma {:induction false} SizeCountsPreOrder(n: Node)
    ensures Size(n) == |PreOrder(n)|
    decreases n
  {
    SizeSeqCountsPreOrderSeq(n.children);
  }

  lemma {:induction false} SizeSeqCountsPreOrderSeq(cs: seq<Node>)
    ensures SizeSeq(cs) == |PreOrderSeq(cs)|
    decreases cs
  {
    if cs != [] {
      SizeCountsPreOrder(cs[0]);
      SizeSeqCountsPreOrderSeq(cs[1..]);
    }
  }

  /** Where the roots of the trees `cs` land when laid out one after
      another from index `b`. */
  function ChildIdx(cs: seq<Node>, b: nat): (ix: seq<nat>)
    decreases cs
    ensures |ix| == |cs|
  {
    if cs == [] then [] else [b] + ChildIdx(cs[1..], b + Size(cs[0]))
  }

  /** The records of tree `n` laid out in pre-order from index `b`, its root
      having parent `p`. */
  function Layout(n: Node, b: nat, p: Option<nat>): (l: Heap<Entry>)
    decreases n
    ensures |l| == Size(n)
  {
    [NodeRec(Some(n.data), p, ChildIdx(n.children, b + 1))] + LayoutSeq(n.children, b + 1, b)
  }

  /** The trees `cs` laid out one after another from index `b`, each root
      having parent `p`. */
  function LayoutSeq(cs: seq<Node>, b: nat, p: nat): (l: Heap<Entry>)
    decreases cs
    ensures |l| == SizeSeq(cs)
  {
    if cs == [] then []
    else Layout(cs[0], b, Some(p)) + LayoutSeq(cs[1..], b + Size(cs[0]), p)
  }

  /** Node `r` of `h` with the indices `ix` appended to its children. */
  function Register(h: Heap<Entry>, r: nat, ix: seq<nat>): (h': Heap<Entry>)
    requires r < |h|
    ensures |h'| == |h|
  {
    h[r := h[r].(children := h[r].children + ix)]
  }

  /** Heap `h` after the trees `cs` have been laid out at its end and
      registered as children of node `r`. */
  function Attach(h: Heap<Entry>, r: nat, cs: seq<Node>): Heap<Entry>
    requires r < |h|
  {
    Register(h, r, ChildIdx(cs, |h|)) + LayoutSeq(cs, |h|, r)
  }

  // ---------------------------------------------------------------------
  // The build produces the layout

  lemma {:induction false} HelpIsAttach(h: Heap<Entry>, r: nat, e: Entry)
    requires r < |h| && h[r].data == Some(e)
    ensures StructureHelp(h, r, e) == Attach(h, r, Build(e).children)
    decreases e
  {
    if e.kind == Directory {
      HelpLoopIsAttach(h, r, e.entries);
    } else {
      AttachNothing(h, r);
    }
  }

  lemma {:induction false} RegisterNothing(h: Heap<Entry>, r: nat)
    requires r < |h|
    ensures Register(h, r, []) == h
  {
    assert h[r].children + [] == h[r].children;
    assert h[r].(children := h[r].children) == h[r];
  }

  lemma {:induction false} AttachNothing(h: Heap<Entry>, r: nat)
    requires r < |h|
    ensures Attach(h, r, []) == h
  {
    RegisterNothing(h, r);
  }

  lemma {:induction false} HelpLoopIsAttach(h: Heap<Entry>, r: nat, es: seq<Entry>)
    requires r < |h|
    ensures HelpLoop(h, r, es) == Attach(h, r, BuildSeq(es))
    decreases es
  {
    if es == [] {
      AttachNothing(h, r);
    } else {
      var n := |h|;
      var c0 := Build(es[0]);
      var hr := Register(h, r, [n]);
      var h3 := hr + [NodeRec(Some(es[0]), Some(r), [])];
      NewChildStep(h, r, es[0]);
      HelpIsAttach(h3, n, es[0]);
      AttachFresh(hr, r, n, c0);
      var h4 := hr + Layout(c0, n, Some(r));
      HelpLoopIsAttach(h4, r, es[1..]);
      assert BuildSeq(es)[1..] == BuildSeq(es[1..]);
      AttachCons(h, r, BuildSeq(es));
    }
  }

  /** One turn of the loop before the recursive call: a fresh node for
      `e0` at the end of the heap, with parent `r` and listed last among
      `r`'s children. */
  lemma {:induction false} NewChildStep(h: Heap<Entry>, r: nat, e0: Entry)
    requires r < |h|
    ensures var (h1, n) := NewNode(h, Some(e0), Some(r));
            SetParent(AddChild(h1, r, n), n, Some(r)) ==
            Register(h, r, [|h|]) + [NodeRec(Some(e0), Some(r), [])]
  {
  }

  /** Expanding the fresh last node of a heap lays out its subtree in place. */
  lemma {:induction false} AttachFresh(hr: Heap<Entry>, r: nat, n: nat, c0: Node)
    requires n == |hr|
    ensures Attach(hr + [NodeRec(Some(c0.data), Some(r), [])], n, c0.children) == hr + Layout(c0, n, Some(r))
  {
    var x := NodeRec(Some(c0.data), Some(r), []);
    var h3 := hr + [x];
    var ix := ChildIdx(c0.children, n + 1);
    assert h3[n] == x;
    assert x.children + ix == ix;
    var y := NodeRec(Some(c0.data), Some(r), ix);
    assert Register(h3, n, ix) == hr + [y];
    assert |h3| == n + 1;
    assert Layout(c0, n, Some(r)) == [y] + LayoutSeq(c0.children, n + 1, n);
  }

  /** Registering child `n`, then the children `ixr`, at node `r` is
      registering `[n] + ixr`, whatever was appended in between. */
  lemma {:induction false} RegisterTwice(h: Heap<Entry>, r: nat, n: nat, ixr: seq<nat>, l0: Heap<Entry>)
    requires r < |h|
    ensures Register(h, r, [n] + ixr) + l0 == Register(Register(h, r, [n]) + l0, r, ixr)
  {
    var hr := Register(h, r, [n]);
    var h4 := hr + l0;
    var kids := h[r].children + ([n] + ixr);
    assert h4[r] == hr[r];
    assert hr[r].children + ixr == kids;
    var v := h[r].(children := kids);
    assert h4[r].(children := h4[r].children + ixr) == v;
    assert h4[r := v] == hr[r := v] + l0;
    assert hr[r := v] == h[r := v];
  }

  /** Attaching a first tree and then the rest is attaching them all. */
  lemma {:induction false} AttachCons(h: Heap<Entry>, r: nat, cs: seq<Node>)
    requires r < |h| && cs != []
    ensures Attach(h, r, cs) == Attach(Register(h, r, [|h|]) + Layout(cs[0], |h|, Some(r)), r, cs[1..])
  {
    AttachUncons(h, r, cs);
    AttachRest(h, r, cs);
  }

  /** The rest of the siblings attached after the first tree. */
  lemma {:induction false} AttachRest(h: Heap<Entry>, r: nat, cs: seq<Node>)
    requires r < |h| && cs != []
    ensures var m := |h| + Size(cs[0]);
            Attach(Register(h, r, [|h|]) + Layout(cs[0], |h|, Some(r)), r, cs[1..])
              == Register(h, r, [|h|] + ChildIdx(cs[1..], m)) + (Layout(cs[0], |h|, Some(r)) + LayoutSeq(cs[1..], m, r))
  {
    var n := |h|;
    var m := n + Size(cs[0]);
    var l0 := Layout(cs[0], n, Some(r));
    var lr := LayoutSeq(cs[1..], m, r);
    var ixr := ChildIdx(cs[1..], m);
    var h4 := Register(h, r, [n]) + l0;
    var w := Register(h, r, [n] + ixr);
    assert |h4| == m;
    calc {
      Attach(h4, r, cs[1..]);
    == { AttachUnfold(h4, r, cs[1..], ixr, lr); }
      Register(h4, r, ixr) + lr;
    == { RegisterTwiceThen(h, r, n, ixr, l0, lr); }
      (w + l0) + lr;
    ==
      w + (l0 + lr);
    }
  }

  lemma {:induction false} RegisterTwiceThen(h: Heap<Entry>, r: nat, n: nat, ixr: seq<nat>, l0: Heap<Entry>, lr: Heap<Entry>)
    requires r < |h|
    ensures (Register(h, r, [n] + ixr) + l0) + lr == Register(Register(h, r, [n]) + l0, r, ixr) + lr
  {
    RegisterTwice(h, r, n, ixr, l0);
  }

  lemma {:induction false} AttachUncons(h: Heap<Entry>, r: nat, cs: seq<Node>)
    requires r < |h| && cs != []
    ensures var m := |h| + Size(cs[0]);
            Attach(h, r, cs)
              == Register(h, r, [|h|] + ChildIdx(cs[1..], m)) + (Layout(cs[0], |h|, Some(r)) + LayoutSeq(cs[1..], m, r))
  {
    var m := |h| + Size(cs[0]);
    ChildIdxCons(cs, |h|);
    LayoutSeqCons(cs, |h|, r);
    AttachUnfold(h, r, cs, [|h|] + ChildIdx(cs[1..], m), Layout(cs[0], |h|, Some(r)) + LayoutSeq(cs[1..], m, r));
  }

  lemma {:induction false} AttachUnfold(h: Heap<Entry>, r: nat, cs: seq<Node>, ix: seq<nat>, ls: Heap<Entry>)
    requires r < |h| && ChildIdx(cs, |h|) == ix && LayoutSeq(cs, |h|, r) == ls
    ensures Attach(h, r, cs) == Register(h, r, ix) + ls
  {
  }

  lemma {:induction false} ChildIdxCons(cs: seq<Node>, n: nat)
    requires cs != []
    ensures ChildIdx(cs, n) == [n] + ChildIdx(cs[1..], n + Size(cs[0]))
  {
  }

  lemma {:induction false} LayoutSeqCons(cs: seq<Node>, n: nat, r: nat)
    requires cs != []
    ensures LayoutSeq(cs, n, r) == Layout(cs[0], n, Some(r)) + LayoutSeq(cs[1..], n + Size(cs[0]), r)
  {
  }

  /** The heap built from `e` is the pre-order layout of the tree built from `e`. */
  lemma {:induction false} BuildHeapIsLayout(e: Entry)
    ensures var h0 := [NodeRec(Some(e), None, [])];
            (if e.kind == Directory then StructureHelp(h0, 0, e) else h0) == Layout(Build(e), 0, None)
  {
    var h0 := [NodeRec(Some(e), None, [])];
    var n := Build(e);
    var ix := ChildIdx(n.children, 1);
    HelpIsAttach(h0, 0, e);
    assert Layout(n, 0, None) == [NodeRec(Some(e), None, ix)] + LayoutSeq(n.children, 1, 0);
    assert h0[0].children + ix == ix;
    assert Register(h0, 0, ix) == [NodeRec(Some(e), None, ix)];
    if e.kind != Directory {
      assert n.children == [];
      assert ix == [];
      assert LayoutSeq(n.children, 1, 0) == [];
    }
  }

  // ---------------------------------------------------------------------
  // Links inside a laid-out segment

  /** Every child link in segment `l` (placed at index `b`) points to a
      later node of the segment whose parent link points back. */
  ghost predicate DownOK(l: Heap<Entry>, b: nat)
  {
    forall j, k :: 0 <= j < |l| && 0 <= k < |l[j].children| ==>
      b + j < l[j].children[k] < b + |l| && l[l[j].children[k] - b].parent == Some(b + j)
  }

  /** Every node of segment `l` other than the `roots` has its parent
      earlier in the segment, and that parent lists it as a child. */
  ghost predicate UpOK(l: Heap<Entry>, b: nat, roots: seq<nat>)
  {
    forall j {:trigger l[j].parent} :: 0 <= j < |l| && b + j !in roots ==>
      l[j].parent.Some? && b <= l[j].parent.value < b + j && b + j in l[l[j].parent.value - b].children
  }

  /** The `roots` lie in the segment and their parent link is `p`. */
  ghost predicate RootsOK(l: Heap<Entry>, b: nat, roots: seq<nat>, p: Option<nat>)
  {
    forall x :: x in roots ==> b <= x < b + |l| && l[x - b].parent == p
  }

  /** Two segments side by side keep their child links. */
  lemma {:induction false} DownAppend(l0: Heap<Entry>, l1: Heap<Entry>, b: nat)
    requires DownOK(l0, b) && DownOK(l1, b + |l0|)
    ensures DownOK(l0 + l1, b)
  {
    var l := l0 + l1;
    forall j, k | 0 <= j < |l| && 0 <= k < |l[j].children|
      ensures b + j < l[j].children[k] < b + |l| && l[l[j].children[k] - b].parent == Some(b + j)
    {
      if j < |l0| {
        assert l[j] == l0[j];
        var x := l0[j].children[k];
        assert l[x - b] == l0[x - b];
      } else {
        var j1 := j - |l0|;
        assert l[j] == l1[j1];
        var x := l1[j1].children[k];
        assert b + |l0| + j1 < x;
        assert l[x - b] == l1[x - (b + |l0|)];
      }
    }
  }

  /** Two segments side by side keep their parent links; the roots of both
      remain roots. */
  lemma {:induction false} UpAppend(l0: Heap<Entry>, l1: Heap<Entry>, b: nat, r0: seq<nat>, r1: seq<nat>)
    requires UpOK(l0, b, r0) && UpOK(l1, b + |l0|, r1)
    ensures UpOK(l0 + l1, b, r0 + r1)
  {
    var l := l0 + l1;
    forall j | 0 <= j < |l| && b + j !in r0 + r1
      ensures l[j].parent.Some? && b <= l[j].parent.value < b + j && b + j in l[l[j].parent.value - b].children
    {
      if j < |l0| {
        assert b + j !in r0;
        assert l[j] == l0[j];
        var q := l0[j].parent.value;
        assert l[q - b] == l0[q - b];
      } else {
        var j1 := j - |l0|;
        assert b + |l0| + j1 !in r1;
        assert l[j] == l1[j1];
        var q := l1[j1].parent.value;
        assert l[q - b] == l1[q - (b + |l0|)];
      }
    }
  }

  lemma {:induction false} RootsAppend(l0: Heap<Entry>, l1: Heap<Entry>, b: nat, r0: seq<nat>, r1: seq<nat>, p: Option<nat>)
    requires RootsOK(l0, b, r0, p) && RootsOK(l1, b + |l0|, r1, p)
    ensures RootsOK(l0 + l1, b, r0 + r1, p)
  {
    var l := l0 + l1;
    forall x | x in r0 + r1
      ensures b <= x < b + |l| && l[x - b].parent == p
    {
      if x in r0 {
        assert l[x - b] == l0[x - b];
      } else {
        assert x in r1;
        assert l[x - b] == l1[x - (b + |l0|)];
      }
    }
  }

  /** A node placed at `b` in front of the segment of its children's
      subtrees, listing exactly the roots of that segment as children. */
  lemma {:induction false} HeadDown(d: Option<Entry>, p: Option<nat>, ls: Heap<Entry>, b: nat, ix: seq<nat>)
    requires DownOK(ls, b + 1) && RootsOK(ls, b + 1, ix, Some(b))
    ensures DownOK([NodeRec(d, p, ix)] + ls, b)
  {
    var l := [NodeRec(d, p, ix)] + ls;
    forall j, k | 0 <= j < |l| && 0 <= k < |l[j].children|
      ensures b + j < l[j].children[k] < b + |l| && l[l[j].children[k] - b].parent == Some(b + j)
    {
      if j == 0 {
        var x := ix[k];
        assert x in ix;
        assert l[x - b] == ls[x - (b + 1)];
      } else {
        assert l[j] == ls[j - 1];
        var x := ls[j - 1].children[k];
        assert l[x - b] == ls[x - (b + 1)];
      }
    }
  }

  lemma {:induction false} HeadUp(d: Option<Entry>, p: Option<nat>, ls: Heap<Entry>, b: nat, ix: seq<nat>)
    requires UpOK(ls, b + 1, ix) && RootsOK(ls, b + 1, ix, Some(b))
    ensures UpOK([NodeRec(d, p, ix)] + ls, b, [b])
  {
    var l := [NodeRec(d, p, ix)] + ls;
    forall j | 0 <= j < |l| && b + j !in [b]
      ensures l[j].parent.Some? && b <= l[j].parent.value < b + j && b + j in l[l[j].parent.value - b].children
    {
      assert l[j] == ls[j - 1];
      if b + j !in ix {
        assert (b + 1) + (j - 1) !in ix;
        var q := ls[j - 1].parent.value;
        assert l[q - b] == ls[q - (b + 1)];
      }
    }
  }

  /** The root of a laid-out tree sits at its first index with parent `p`. */
  lemma {:induction false} LayoutRoot(n: Node, b: nat, p: Option<nat>)
    ensures RootsOK(Layout(n, b, p), b, [b], p)
  {
    assert Layout(n, b, p)[0].parent == p;
    assert forall x :: x in [b] ==> x == b;
  }

  /** The roots of the laid-out sibling trees have the common parent `p`. */
  lemma {:induction false} LayoutSeqRoots(cs: seq<Node>, b: nat, p: nat)
    ensures RootsOK(LayoutSeq(cs, b, p), b, ChildIdx(cs, b), Some(p))
    decreases cs
  {
    if cs != [] {
      var b1 := b + Size(cs[0]);
      LayoutRoot(cs[0], b, Some(p));
      LayoutSeqRoots(cs[1..], b1, p);
      RootsAppend(Layout(cs[0], b, Some(p)), LayoutSeq(cs[1..], b1, p), b, [b], ChildIdx(cs[1..], b1), Some(p));
      RootsOfCons(cs, b, p);
    }
  }

  // The three link properties carried from a first tree and the rest over
  // to the whole sibling layout.

  lemma {:induction false} RootsOfCons(cs: seq<Node>, b: nat, p: nat)
    requires cs != []
    requires var b1 := b + Size(cs[0]);
             RootsOK(Layout(cs[0], b, Some(p)) + LayoutSeq(cs[1..], b1, p), b, [b] + ChildIdx(cs[1..], b1), Some(p))
    ensures RootsOK(LayoutSeq(cs, b, p), b, ChildIdx(cs, b), Some(p))
  {
    LayoutSeqCons(cs, b, p);
    ChildIdxCons(cs, b);
  }

  lemma {:induction false} DownOfCons(cs: seq<Node>, b: nat, p: nat)
    requires cs != []
    requires DownOK(Layout(cs[0], b, Some(p)) + LayoutSeq(cs[1..], b + Size(cs[0]), p), b)
    ensures DownOK(LayoutSeq(cs, b, p), b)
  {
    LayoutSeqCons(cs, b, p);
  }

  lemma {:induction false} UpOfCons(cs: seq<Node>, b: nat, p: nat)
    requires cs != []
    requires var b1 := b + Size(cs[0]);
             UpOK(Layout(cs[0], b, Some(p)) + LayoutSeq(cs[1..], b1, p), b, [b] + ChildIdx(cs[1..], b1))
    ensures UpOK(LayoutSeq(cs, b, p), b, ChildIdx(cs, b))
  {
    LayoutSeqCons(cs, b, p);
    ChildIdxCons(cs, b);
  }

  /** Child links in a laid-out tree point to later nodes that point back. */
  lemma {:induction false} LayoutDown(n: Node, b: nat, p: Option<nat>)
    ensures DownOK(Layout(n, b, p), b)
    decreases n
  {
    var ls := LayoutSeq(n.children, b + 1, b);
    var ix := ChildIdx(n.children, b + 1);
    assert Layout(n, b, p) == [NodeRec(Some(n.data), p, ix)] + ls;
    assert DownOK([NodeRec(Some(n.data), p, ix)] + ls, b) by {
      LayoutSeqDown(n.children, b + 1, b);
      LayoutSeqRoots(n.children, b + 1, b);
      HeadDown(Some(n.data), p, ls, b, ix);
    }
  }

  lemma {:induction false} LayoutSeqDown(cs: seq<Node>, b: nat, p: nat)
    ensures DownOK(LayoutSeq(cs, b, p), b)
    decreases cs
  {
    if cs != [] {
      var b1 := b + Size(cs[0]);
      LayoutDown(cs[0], b, Some(p));
      LayoutSeqDown(cs[1..], b1, p);
      DownAppend(Layout(cs[0], b, Some(p)), LayoutSeq(cs[1..], b1, p), b);
      DownOfCons(cs, b, p);
    }
  }

  /** Parent links in a laid-out tree point to earlier nodes that list them. */
  lemma {:induction false} LayoutUp(n: Node, b: nat, p: Option<nat>)
    ensures UpOK(Layout(n, b, p), b, [b])
    decreases n
  {
    var ls := LayoutSeq(n.children, b + 1, b);
    var ix := ChildIdx(n.children, b + 1);
    assert Layout(n, b, p) == [NodeRec(Some(n.data), p, ix)] + ls;
    assert UpOK([NodeRec(Some(n.data), p, ix)] + ls, b, [b]) by {
      LayoutSeqUp(n.children, b + 1, b);
      LayoutSeqRoots(n.children, b + 1, b);
      HeadUp(Some(n.data), p, ls, b, ix);
    }
  }

  lemma {:induction false} LayoutSeqUp(cs: seq<Node>, b: nat, p: nat)
    ensures UpOK(LayoutSeq(cs, b, p), b, ChildIdx(cs, b))
    decreases cs
  {
    if cs != [] {
      var b1 := b + Size(cs[0]);
      LayoutUp(cs[0], b, Some(p));
      LayoutSeqUp(cs[1..], b1, p);
      UpAppend(Layout(cs[0], b, Some(p)), LayoutSeq(cs[1..], b1, p), b, [b], ChildIdx(cs[1..], b1));
      UpOfCons(cs, b, p);
    }
  }

  // ---------------------------------------------------------------------
  // Children in a laid-out segment mirror the tree's children

  /** The indices `ix` point, in order, at the nodes of segment `l` (placed
      at `b`) that hold the payloads of the trees `cs`. */
  ghost predicate ChildrenAt(l: Heap<Entry>, b: nat, ix: seq<nat>, cs: seq<Node>)
  {
    |ix| == |cs| &&
    forall k :: 0 <= k < |ix| ==> b <= ix[k] < b + |l| && l[ix[k] - b].data == Some(cs[k].data)
  }

  /** Segment `l` (placed at `b`) lays out the nodes `ns` one for one, each
      record listing the nodes of that node's children. */
  ghost predicate ShapeOK(l: Heap<Entry>, b: nat, ns: seq<Node>)
  {
    |l| == |ns| && forall j :: 0 <= j < |l| ==> ChildrenAt(l, b, l[j].children, ns[j].children)
  }

  lemma {:induction false} ChildrenAtLeft(l0: Heap<Entry>, l1: Heap<Entry>, b: nat, ix: seq<nat>, cs: seq<Node>)
    requires ChildrenAt(l0, b, ix, cs)
    ensures ChildrenAt(l0 + l1, b, ix, cs)
  {
    forall k | 0 <= k < |ix|
      ensures b <= ix[k] < b + |l0 + l1| && (l0 + l1)[ix[k] - b].data == Some(cs[k].data)
    {
      assert (l0 + l1)[ix[k] - b] == l0[ix[k] - b];
    }
  }

  lemma {:induction false} ChildrenAtRight(l0: Heap<Entry>, l1: Heap<Entry>, b: nat, ix: seq<nat>, cs: seq<Node>)
    requires ChildrenAt(l1, b + |l0|, ix, cs)
    ensures ChildrenAt(l0 + l1, b, ix, cs)
  {
    forall k | 0 <= k < |ix|
      ensures b <= ix[k] < b + |l0 + l1| && (l0 + l1)[ix[k] - b].data == Some(cs[k].data)
    {
      assert (l0 + l1)[ix[k] - b] == l1[ix[k] - (b + |l0|)];
    }
  }

  lemma {:induction false} ChildrenAtConcat(l: Heap<Entry>, b: nat, ix0: seq<nat>, cs0: seq<Node>, ix1: seq<nat>, cs1: seq<Node>)
    requires ChildrenAt(l, b, ix0, cs0) && ChildrenAt(l, b, ix1, cs1)
    ensures ChildrenAt(l, b, ix0 + ix1, cs0 + cs1)
  {
    forall k | 0 <= k < |ix0 + ix1|
      ensures b <= (ix0 + ix1)[k] < b + |l| && l[(ix0 + ix1)[k] - b].data == Some((cs0 + cs1)[k].data)
    {
      if k < |ix0| {
        assert (ix0 + ix1)[k] == ix0[k] && (cs0 + cs1)[k] == cs0[k];
      } else {
        assert (ix0 + ix1)[k] == ix1[k - |ix0|] && (cs0 + cs1)[k] == cs1[k - |ix0|];
      }
    }
  }

  /** The roots of the laid-out sibling trees hold the siblings' payloads,
      in order. */
  lemma {:induction false} LayoutSeqChildrenAt(cs: seq<Node>, b: nat, p: nat)
    ensures ChildrenAt(LayoutSeq(cs, b, p), b, ChildIdx(cs, b), cs)
    decreases cs
  {
    if cs != [] {
      var b1 := b + Size(cs[0]);
      var l0 := Layout(cs[0], b, Some(p));
      var l1 := LayoutSeq(cs[1..], b1, p);
      assert ChildrenAt(l0 + l1, b, [b], [cs[0]]) by {
        assert l0[0].data == Some(cs[0].data);
        ChildrenAtLeft(l0, l1, b, [b], [cs[0]]);
      }
      assert ChildrenAt(l0 + l1, b, ChildIdx(cs[1..], b1), cs[1..]) by {
        LayoutSeqChildrenAt(cs[1..], b1, p);
        ChildrenAtRight(l0, l1, b, ChildIdx(cs[1..], b1), cs[1..]);
      }
      ChildrenAtConcat(l0 + l1, b, [b], [cs[0]], ChildIdx(cs[1..], b1), cs[1..]);
      ChildrenAtOfCons(cs, b, p);
    }
  }

  lemma {:induction false} ChildrenAtOfCons(cs: seq<Node>, b: nat, p: nat)
    requires cs != []
    requires var b1 := b + Size(cs[0]);
             ChildrenAt(Layout(cs[0], b, Some(p)) + LayoutSeq(cs[1..], b1, p), b, [b] + ChildIdx(cs[1..], b1), [cs[0]] + cs[1..])
    ensures ChildrenAt(LayoutSeq(cs, b, p), b, ChildIdx(cs, b), cs)
  {
    LayoutSeqCons(cs, b, p);
    ChildIdxCons(cs, b);
    assert [cs[0]] + cs[1..] == cs;
  }

  /** Two shaped segments side by side stay shaped. */
  lemma {:induction false} ShapeAppend(l0: Heap<Entry>, l1: Heap<Entry>, b: nat, ns0: seq<Node>, ns1: seq<Node>)
    requires ShapeOK(l0, b, ns0) && ShapeOK(l1, b + |l0|, ns1)
    ensures ShapeOK(l0 + l1, b, ns0 + ns1)
  {
    var l := l0 + l1;
    forall j | 0 <= j < |l|
      ensures ChildrenAt(l, b, l[j].children, (ns0 + ns1)[j].children)
    {
      if j < |l0| {
        assert l[j] == l0[j] && (ns0 + ns1)[j] == ns0[j];
        ChildrenAtLeft(l0, l1, b, l0[j].children, ns0[j].children);
      } else {
        assert l[j] == l1[j - |l0|] && (ns0 + ns1)[j] == ns1[j - |l0|];
        ChildrenAtRight(l0, l1, b, l1[j - |l0|].children, ns1[j - |l0|].children);
      }
    }
  }

  /** A record for node `m` in front of the shaped segment of its
      descendants, listing the roots of `m`'s children. */
  lemma {:induction false} HeadShape(x: NodeRec<Entry>, ls: Heap<Entry>, b: nat, m: Node, ns: seq<Node>)
    requires ChildrenAt(ls, b + 1, x.children, m.children) && ShapeOK(ls, b + 1, ns)
    ensures ShapeOK([x] + ls, b, [m] + ns)
  {
    var l := [x] + ls;
    forall j | 0 <= j < |l|
      ensures ChildrenAt(l, b, l[j].children, ([m] + ns)[j].children)
    {
      if j == 0 {
        assert l[0] == x && ([m] + ns)[0] == m;
        ChildrenAtRight([x], ls, b, x.children, m.children);
      } else {
        assert l[j] == ls[j - 1] && ([m] + ns)[j] == ns[j - 1];
        ChildrenAtRight([x], ls, b, ls[j - 1].children, ns[j - 1].children);
      }
    }
  }

  /** Each record of a laid-out tree lists, in order, the records of its
      node's children. */
  lemma {:induction false} LayoutShape(n: Node, b: nat, p: Option<nat>)
    ensures ShapeOK(Layout(n, b, p), b, PreOrder(n))
    decreases n
  {
    var ls := LayoutSeq(n.children, b + 1, b);
    var ix := ChildIdx(n.children, b + 1);
    assert Layout(n, b, p) == [NodeRec(Some(n.data), p, ix)] + ls;
    assert PreOrder(n) == [n] + PreOrderSeq(n.children);
    assert ShapeOK([NodeRec(Some(n.data), p, ix)] + ls, b, [n] + PreOrderSeq(n.children)) by {
      LayoutSeqShape(n.children, b + 1, b);
      LayoutSeqChildrenAt(n.children, b + 1, b);
      HeadShape(NodeRec(Some(n.data), p, ix), ls, b, n, PreOrderSeq(n.children));
    }
  }

  lemma {:induction false} LayoutSeqShape(cs: seq<Node>, b: nat, p: nat)
    ensures ShapeOK(LayoutSeq(cs, b, p), b, PreOrderSeq(cs))
    decreases cs
  {
    if cs != [] {
      LayoutShape(cs[0], b, Some(p));
      LayoutSeqShape(cs[1..], b + Size(cs[0]), p);
      ShapeOfCons(cs, b, p);
    }
  }

  lemma {:induction false} ShapeOfCons(cs: seq<Node>, b: nat, p: nat)
    requires cs != []
    requires ShapeOK(Layout(cs[0], b, Some(p)), b, PreOrder(cs[0]))
    requires ShapeOK(LayoutSeq(cs[1..], b + Size(cs[0]), p), b + Size(cs[0]), PreOrderSeq(cs[1..]))
    ensures ShapeOK(LayoutSeq(cs, b, p), b, PreOrderSeq(cs))
  {
    var l0 := Layout(cs[0], b, Some(p));
    var l1 := LayoutSeq(cs[1..], b + Size(cs[0]), p);
    ShapeAppend(l0, l1, b, PreOrder(cs[0]), PreOrderSeq(cs[1..]));
    LayoutSeqCons(cs, b, p);
    assert PreOrderSeq(cs) == PreOrder(cs[0]) + PreOrderSeq(cs[1..]);
  }

  /** In the heap built from `e`, the record at pre-order position `j`
      lists, in enumeration order, the records of the entries listed below
      the `j`-th reachable entry. */
  lemma {:induction false} LayoutMirrorsListing(e: Entry)
    ensures var l := Layout(Build(e), 0, None);
            |l| == |Walk(e)| &&
            forall j :: 0 <= j < |l| ==> ChildrenAt(l, 0, l[j].children, BuildSeq(Listed(Walk(e)[j])))
  {
    var n := Build(e);
    var l := Layout(n, 0, None);
    LayoutShape(n, 0, None);
    BuiltSubtrees(e);
    BuildMirrorsWalk(e);
    forall j | 0 <= j < |l|
      ensures ChildrenAt(l, 0, l[j].children, BuildSeq(Listed(Walk(e)[j])))
    {
      var m := PreOrder(n)[j];
      assert m.data == Walk(e)[j];
      assert m == Build(Walk(e)[j]);
    }
  }

  /** The same, stated on the entries themselves. */
  lemma {:induction false} LayoutListsEntries(e: Entry)
    ensures var l := Layout(Build(e), 0, None);
            |l| == |Walk(e)| &&
            (forall j :: 0 <= j < |l| ==> |l[j].children| == |Listed(Walk(e)[j])|) &&
            (forall j, k :: 0 <= j < |l| && 0 <= k < |l[j].children| ==>
               l[j].children[k] < |l| && l[l[j].children[k]].data == Some(Listed(Walk(e)[j])[k]))
  {
    var l := Layout(Build(e), 0, None);
    LayoutMirrorsListing(e);
    forall j | 0 <= j < |l|
      ensures |l[j].children| == |Listed(Walk(e)[j])|
      ensures forall k :: 0 <= k < |l[j].children| ==>
                l[j].children[k] < |l| && l[l[j].children[k]].data == Some(Listed(Walk(e)[j])[k])
    {
      var cs := BuildSeq(Listed(Walk(e)[j]));
      assert ChildrenAt(l, 0, l[j].children, cs);
      forall k | 0 <= k < |l[j].children|
        ensures l[j].children[k] < |l| && l[l[j].children[k]].data == Some(Listed(Walk(e)[j])[k])
      {
        assert cs[k].data == Listed(Walk(e)[j])[k];
      }
    }
  }

  // ---------------------------------------------------------------------
  // Each child is listed once, in allocation order

  /** The indices `ix` strictly increase, so none is listed twice. */
  ghost predicate Ascending(ix: seq<nat>)
  {
    forall k, k' :: 0 <= k < k' < |ix| ==> ix[k] < ix[k']
  }

  /** Every record of `l` lists its children in strictly increasing order. */
  ghost predicate ListsAscending(l: Heap<Entry>)
  {
    forall j :: 0 <= j < |l| ==> Ascending(l[j].children)
  }

  /** The roots of sibling trees laid out one after another lie at or after
      `b`, in strictly increasing order. */
  lemma {:induction false} ChildIdxAscending(cs: seq<Node>, b: nat)
    ensures Ascending(ChildIdx(cs, b))
    ensures forall k :: 0 <= k < |ChildIdx(cs, b)| ==> b <= ChildIdx(cs, b)[k]
    decreases cs
  {
    if cs != [] {
      var b1 := b + Size(cs[0]);
      var rest := ChildIdx(cs[1..], b1);
      ChildIdxAscending(cs[1..], b1);
      ChildIdxCons(cs, b);
      assert b < b1;
      forall k, k' | 0 <= k < k' < |[b] + rest|
        ensures ([b] + rest)[k] < ([b] + rest)[k']
      {
        assert ([b] + rest)[k'] == rest[k' - 1];
        if k > 0 {
          assert ([b] + rest)[k] == rest[k - 1];
        }
      }
    }
  }

  lemma {:induction false} AscendingAppend(l0: Heap<Entry>, l1: Heap<Entry>)
    requires ListsAscending(l0) && ListsAscending(l1)
    ensures ListsAscending(l0 + l1)
  {
    forall j | 0 <= j < |l0 + l1|
      ensures Ascending((l0 + l1)[j].children)
    {
      if j < |l0| {
        assert (l0 + l1)[j] == l0[j];
      } else {
        assert (l0 + l1)[j] == l1[j - |l0|];
      }
    }
  }

  /** Every record of a laid-out tree lists its children in strictly
      increasing order. */
  lemma {:induction false} LayoutAscending(n: Node, b: nat, p: Option<nat>)
    ensures ListsAscending(Layout(n, b, p))
    decreases n
  {
    var x := NodeRec(Some(n.data), p, ChildIdx(n.children, b + 1));
    var ls := LayoutSeq(n.children, b + 1, b);
    ChildIdxAscending(n.children, b + 1);
    LayoutSeqAscending(n.children, b + 1, b);
    assert ListsAscending([x]);
    AscendingAppend([x], ls);
  }

  lemma {:induction false} LayoutSeqAscending(cs: seq<Node>, b: nat, p: nat)
    ensures ListsAscending(LayoutSeq(cs, b, p))
    decreases cs
  {
    if cs != [] {
      LayoutAscending(cs[0], b, Some(p));
      LayoutSeqAscending(cs[1..], b + Size(cs[0]), p);
      AscendingOfCons(cs, b, p);
    }
  }

  lemma {:induction false} AscendingOfCons(cs: seq<Node>, b: nat, p: nat)
    requires cs != []
    requires ListsAscending(Layout(cs[0], b, Some(p)))
    requires ListsAscending(LayoutSeq(cs[1..], b + Size(cs[0]), p))
    ensures ListsAscending(LayoutSeq(cs, b, p))
  {
    AscendingAppend(Layout(cs[0], b, Some(p)), LayoutSeq(cs[1..], b + Size(cs[0]), p));
    LayoutSeqCons(cs, b, p);
  }

  /** A tree laid out from index 0 with no parent for its root has
      consistent parent and child links. */
  lemma {:induction false} LayoutConsistent(n: Node)
    ensures Layout(n, 0, None)[0].parent == None
    ensures forall j :: 0 < j < |Layout(n, 0, None)| ==> Layout(n, 0, None)[j].parent.Some?
    ensures LinksConsistent(Layout(n, 0, None))
    ensures ListsAscending(Layout(n, 0, None))
  {
    var l := Layout(n, 0, None);
    LayoutDown(n, 0, None);
    LayoutUp(n, 0, None);
    LayoutAscending(n, 0, None);
    assert l[0].parent == None;
    forall j | 0 < j < |l|
      ensures l[j].parent.Some?
    {
      assert 0 + j !in [0];
    }
    forall j | 0 <= j < |l| && l[j].parent.Some?
      ensures l[j].parent.value < |l| && j in l[l[j].parent.value].children
    {
      assert 0 + j !in [0];
    }
  }

  /** Position `j` of the layout holds the payload of the `j`-th node in
      pre-order. */
  lemma {:induction false} LayoutData(n: Node, b: nat, p: Option<nat>)
    ensures |Layout(n, b, p)| == |PreOrder(n)|
    ensures forall j :: 0 <= j < |Layout(n, b, p)| ==> Layout(n, b, p)[j].data == Some(PreOrder(n)[j].data)
    decreases n
  {
    SizeCountsPreOrder(n);
    var ls := LayoutSeq(n.children, b + 1, b);
    LayoutSeqData(n.children, b + 1, b);
    assert Layout(n, b, p) == [NodeRec(Some(n.data), p, ChildIdx(n.children, b + 1))] + ls;
    assert PreOrder(n) == [n] + PreOrderSeq(n.children);
  }

  lemma {:induction false} LayoutSeqData(cs: seq<Node>, b: nat, p: nat)
    ensures |LayoutSeq(cs, b, p)| == |PreOrderSeq(cs)|
    ensures forall j :: 0 <= j < |LayoutSeq(cs, b, p)| ==> LayoutSeq(cs, b, p)[j].data == Some(PreOrderSeq(cs)[j].data)
    decreases cs
  {
    SizeSeqCountsPreOrderSeq(cs);
    if cs != [] {
      var l0 := Layout(cs[0], b, Some(p));
      var l1 := LayoutSeq(cs[1..], b + |l0|, p);
      LayoutData(cs[0], b, Some(p));
      LayoutSeqData(cs[1..], b + |l0|, p);
      assert LayoutSeq(cs, b, p) == l0 + l1;
      assert PreOrderSeq(cs) == PreOrder(cs[0]) + PreOrderSeq(cs[1..]);
    }
  }
}
