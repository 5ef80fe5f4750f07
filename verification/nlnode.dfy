/** `NLNode<T>`: a tree node with a payload, a non-owning parent link and an
    ordered list of children.

    Java nodes are heap objects that point at each other. The model gives
    every node an index into a heap, a `seq` of node records. A parent or
    child reference is then the index of the node it points to, and `null`
    is `None`. Each mutator returns the updated heap. */
module NLNodes {
  import opened Wrappers

  /** The three fields of one node. `children` is the `ListNodes` list, in
      insertion order. */
  datatype NodeRec<T> = NodeRec(data: Option<T>, parent: Option<nat>, children: seq<nat>)

  /** All nodes allocated so far; a node's reference is its index. */
  type Heap<T> = seq<NodeRec<T>>

  /** `new NLNode()`: a node with no parent, no data and no children,
      allocated at the next free index. */
  function NewEmptyNode<T>(h: Heap<T>): (r: (Heap<T>, nat))
    ensures r.1 == |h| && |r.0| == |h| + 1
    ensures r.0[..|h|] == h
    ensures GetData(r.0, r.1) == None && GetParent(r.0, r.1) == None && GetChildren(r.0, r.1) == []
  {
    (h + [NodeRec(None, None, [])], |h|)
  }

  /** `new NLNode(d, p)`: a node holding `d` whose parent link is `p`. The
      node is not added to `p`'s children. */
  function NewNode<T>(h: Heap<T>, d: Option<T>, p: Option<nat>): (r: (Heap<T>, nat))
    ensures r.1 == |h| && |r.0| == |h| + 1
    ensures r.0[..|h|] == h
    ensures GetData(r.0, r.1) == d && GetParent(r.0, r.1) == p && GetChildren(r.0, r.1) == []
  {
    (h + [NodeRec(d, p, [])], |h|)
  }

  /** `getParent()`. */
  function GetParent<T>(h: Heap<T>, i: nat): Option<nat>
    requires i < |h|
  {
    h[i].parent
  }

  /** `getData()`. */
  function GetData<T>(h: Heap<T>, i: nat): Option<T>
    requires i < |h|
  {
    h[i].data
  }

  /** `getChildren()`: the children in insertion order. */
  function GetChildren<T>(h: Heap<T>, i: nat): seq<nat>
    requires i < |h|
  {
    h[i].children
  }

  /** `setParent(p)`: only node `i`'s parent link changes. Neither the old
      nor the new parent's children list is updated. */
  function SetParent<T>(h: Heap<T>, i: nat, p: Option<nat>): (h': Heap<T>)
    requires i < |h|
    ensures |h'| == |h|
    ensures GetParent(h', i) == p
    ensures GetData(h', i) == GetData(h, i) && GetChildren(h', i) == GetChildren(h, i)
    ensures forall j :: 0 <= j < |h| && j != i ==> h'[j] == h[j]
  {
    h[i := h[i].(parent := p)]
  }

  /** `setData(d)`: only node `i`'s payload changes. */
  function SetData<T>(h: Heap<T>, i: nat, d: Option<T>): (h': Heap<T>)
    requires i < |h|
    ensures |h'| == |h|
    ensures GetData(h', i) == d
    ensures GetParent(h', i) == GetParent(h, i) && GetChildren(h', i) == GetChildren(h, i)
    ensures forall j :: 0 <= j < |h| && j != i ==> h'[j] == h[j]
  {
    h[i := h[i].(data := d)]
  }

  /** `addChild(c)` on node `i`: first `c.setParent(i)`, then `c` is appended
      to `i`'s children. A node added twice is listed twice. When `c == i`
      the node becomes its own parent. */
  function AddChild<T>(h: Heap<T>, i: nat, c: nat): (h': Heap<T>)
    requires i < |h| && c < |h|
    ensures |h'| == |h|
    ensures GetParent(h', c) == Some(i)
    ensures GetChildren(h', i) == GetChildren(h, i) + [c]
    ensures multiset(GetChildren(h', i))[c] == multiset(GetChildren(h, i))[c] + 1
    ensures GetData(h', i) == GetData(h, i)
    ensures i != c ==> GetParent(h', i) == GetParent(h, i)
    ensures c != i ==> GetData(h', c) == GetData(h, c) && GetChildren(h', c) == GetChildren(h, c)
    ensures forall j :: 0 <= j < |h| && j != i && j != c ==> h'[j] == h[j]
  {
    var h1 := SetParent(h, c, Some(i));
    h1[i := h1[i].(children := h1[i].children + [c])]
  }

  /** Every child link points at a node whose parent link points back. */
  ghost predicate DownLinks<T>(h: Heap<T>)
  {
    forall i, k :: 0 <= i < |h| && 0 <= k < |h[i].children| ==>
      h[i].children[k] < |h| && h[h[i].children[k]].parent == Some(i)
  }

  /** Every parent link points at a node that lists this node as a child. */
  ghost predicate UpLinks<T>(h: Heap<T>)
  {
    forall j {:trigger h[j].parent} :: 0 <= j < |h| && h[j].parent.Some? ==>
      h[j].parent.value < |h| && j in h[h[j].parent.value].children
  }

  /** The parent/child links agree in both directions. */
  ghost predicate LinksConsistent<T>(h: Heap<T>)
  {
    DownLinks(h) && UpLinks(h)
  }

  /** Creating a node with parent `p` and then `p.addChild` on it keeps the
      links consistent, whatever parent the constructor was given. */
  lemma {:induction false} AttachFreshKeepsLinks<T>(h: Heap<T>, p: nat, d: Option<T>, q: Option<nat>)
    requires p < |h| && LinksConsistent(h)
    ensures var (h1, c) := NewNode(h, d, q);
            LinksConsistent(AddChild(h1, p, c))
  {
    var (h1, c) := NewNode(h, d, q);
    var h2 := AddChild(h1, p, c);
    forall i, k | 0 <= i < |h2| && 0 <= k < |h2[i].children|
      ensures h2[i].children[k] < |h2| && h2[h2[i].children[k]].parent == Some(i)
    {
      if i == p && k == |h[p].children| {
        assert h2[i].children[k] == c;
      } else {
        assert i < |h| && k < |h[i].children| && h2[i].children[k] == h[i].children[k];
      }
    }
    forall j | 0 <= j < |h2| && h2[j].parent.Some?
      ensures h2[j].parent.value < |h2| && j in h2[h2[j].parent.value].children
    {
      if j == c {
        assert h2[p].children[|h[p].children|] == c;
      } else {
        assert h2[j].parent == h[j].parent;
        var q := h[j].parent.value;
        assert q < |h| && j in h[q].children;
        assert h[q].children <= h2[q].children;
      }
    }
  }

  /** `setParent` on its own breaks the links of a consistent heap whenever
      it moves a child away from the parent that lists it. */
  lemma {:induction false} SetParentAloneBreaksLinks<T>(h: Heap<T>, i: nat, k: nat, p: Option<nat>)
    requires LinksConsistent(h)
    requires i < |h| && k < |h[i].children| && p != Some(i)
    ensures !DownLinks(SetParent(h, h[i].children[k], p))
  {
    var c := h[i].children[k];
    var h' := SetParent(h, c, p);
    assert h'[i].children == h[i].children || i == c;
    assert h'[i].children[k] == c;
  }
}
