/** What the code that takes a document out of the tree writes, and that it amounts
    to a borrow, a merge, or the loss of the root level. */
module Removal {
  import opened Lists
  import opened SortOrder
  import opened Layout
  import opened Regroup
  import opened Steps
  import opened Siblings
  import opened TreeInvariant
  import opened Descent

  // ----- two neighbouring children

  /** l and r are the k-th and the next child of q, and neighbours in the chain of their level. */
  ghost predicate Adjacent(t: Shape, root: Option<NodeId>, d: nat, l: NodeId, r: NodeId, q: NodeId, k: nat)
  {
    && Tree(t, root) && OnLevel(t, d, l) && OnLevel(t, d, r) && OnLevel(t, d + 1, q)
    && l in t.ns && r in t.ns && q in t.ns && l != r && l != q && r != q
    && t.ns[l].parent == Some(q) && t.ns[r].parent == Some(q)
    && t.ns[q].Inner? && |t.ns[q].children| == |t.ns[q].vals| + 1
    && k < |t.ns[q].vals| && t.ns[q].children[k] == l && t.ns[q].children[k + 1] == r
    && IndexOf(l, Kids(t.ns, q)) == k
  }

  lemma {:induction false} SiblingsOf(t: Shape, root: Option<NodeId>, d: nat, q: NodeId, k: nat)
    requires Tree(t, root) && OnLevel(t, d + 1, q) && k + 1 < |Kids(t.ns, q)|
    ensures Adjacent(t, root, d, Kids(t.ns, q)[k], Kids(t.ns, q)[k + 1], q, k)
  {
    var ks := Kids(t.ns, q);
    KidsOf(t, root, d + 1, q);
    KidsBelow(t, root, d + 1, q);
    var l, r := ks[k], ks[k + 1];
    assert l in ks && r in ks && Differ(ks, k, ks, k + 1);
    OnlyAt(ks, IndexOf(l, ks), k);
  }

  lemma {:induction false} SiblingLinks(t: Shape, root: Option<NodeId>, d: nat, l: NodeId, r: NodeId, q: NodeId, k: nat)
    requires Adjacent(t, root, d, l, r, q, k)
    ensures t.ns[l].next == Some(r) && t.ns[r].prev == Some(l)
    ensures t.ns[l].prev.Some? ==>
      Linked(t, d, t.ns[l].prev.value) && t.ns[t.ns[l].prev.value].next == Some(l) && t.ns[l].prev.value != r
          && t.ns[l].prev.value != l
    ensures t.ns[r].next.Some? ==>
      Linked(t, d, t.ns[r].next.value) && t.ns[t.ns[r].next.value].prev == Some(r) && t.ns[r].next.value != l
          && t.ns[r].next.value != r
  {
    assert LevelAt(t, d) && LevelAt(t, d + 1);
    var j :| 0 <= j < |t.levels[d + 1]| && t.levels[d + 1][j] == q;
    var m := ChildAt(t, root, d, j, k);
    var m' := ChildAt(t, root, d, j, k + 1);
    var xs, i := t.levels[d], m + k;
    assert LinkedAt(t.ns, xs, i) && LinkedAt(t.ns, xs, i + 1) && LinkedAt(t.ns, xs, i - 1) && LinkedAt(t.ns, xs, i + 2);
    assert Differ(xs, i - 1, xs, i) && Differ(xs, i - 1, xs, i + 1) && Differ(xs, i, xs, i + 2)
      && Differ(xs, i + 1, xs, i + 2);
  }

  /** A stored node of level d. */
  ghost predicate Linked(t: Shape, d: nat, u: NodeId)
  {
    OnLevel(t, d, u) && u in t.ns
  }

  /** Nodes of different levels differ. */
  lemma {:induction false} LevelsApart(t: Shape, root: Option<NodeId>, d: nat, u: NodeId, e: nat, v: NodeId)
    requires Tree(t, root) && OnLevel(t, d, u) && OnLevel(t, e, v) && d != e
    ensures u != v
  {
    KidsOf(t, root, d, u);
    KidsOf(t, root, e, v);
  }

  // ----- borrowing, as written

  /** n but for its entries. */
  ghost predicate SameFrame(n: Node, n': Node)
  {
    n'.Leaf? == n.Leaf? && n'.parent == n.parent && n'.prev == n.prev && n'.next == n.next
  }

  /** Child c moves from one of l and r to the other, w; leaves have none to move. */
  ghost predicate Handed(l: Node, r: Node, l': Node, r': Node, c: Option<NodeId>, toRight: bool)
  {
    if l.Leaf? then c.None?
    else
      && c.Some? && l'.Inner? && r.Inner? && r'.Inner?
      && if toRight then l.children == l'.children + [c.value] && r'.children == [c.value] + r.children
         else l'.children == l.children + [c.value] && r.children == [c.value] + r'.children
  }

  ghost function Moved(ns: Nodes, c: Option<NodeId>, w: NodeId): Nodes
  {
    if c.Some? && c.value in ns then ns[c.value := ns[c.value].(parent := Some(w))] else ns
  }

  /** The records after a borrow. */
  ghost function Borrowed(ns: Nodes, l: NodeId, l': Node, r: NodeId, r': Node, q: NodeId, q': Node, c: Option<NodeId>,
      toRight: bool): Nodes
  {
    Moved(ns[l := l'][r := r'][q := q'], c, if toRight then r else l)
  }

  lemma {:induction false} BorrowWritten(t: Shape, root: Option<NodeId>, d: nat, l: NodeId, r: NodeId, q: NodeId,
      k: nat, sep: SortKey,
      l': Node, r': Node, q': Node, c: Option<NodeId>, toRight: bool)
    requires Adjacent(t, root, d, l, r, q, k)
    requires SameFrame(t.ns[l], l') && SameFrame(t.ns[r], r') && q' == t.ns[q].(vals := t.ns[q].vals[k := sep])
    requires Shares(t.ns[l], t.ns[r], t.ns[q].vals[k], l', r', sep) && Handed(t.ns[l], t.ns[r], l', r', c, toRight)
    ensures BorrowStore(t.ns, Borrowed(t.ns, l, l', r, r', q, q', c, toRight), l, r, q, k, sep)
  {
    var ns, ns' := t.ns, Borrowed(t.ns, l, l', r, r', q, q', c, toRight);
    KidsOf(t, root, d, l);
    KidsOf(t, root, d, r);
    KidsBelow(t, root, d, l);
    KidsBelow(t, root, d, r);
    KidsOf(t, root, d + 1, q);
    var both := Kids(ns, l) + Kids(ns, r);
    if c.Some? {
      assert c.value in both by {
        if toRight { assert Kids(ns, l)[|Kids(ns, l)| - 1] == c.value; } else { assert Kids(ns, r)[0] == c.value; }
      }
      assert c.value != l && c.value != r && c.value != q;
    }
    BorrowParents(ns, ns', l, r, l', r', c, toRight, q);
    forall u | u in ns ensures u in ns' && SameLinks(ns, ns', u) {}
  }

  lemma {:induction false} BorrowParents(ns: Nodes, ns': Nodes, l: NodeId, r: NodeId, l': Node, r': Node,
      c: Option<NodeId>, toRight: bool, q: NodeId)
    requires l in ns && r in ns && q in ns && l != r && l != q && r != q && Adopted(ns, l) && Adopted(ns, r)
    requires NoDup(Kids(ns, l)) && NoDup(Kids(ns, r))
    requires Handed(ns[l], ns[r], l', r', c, toRight) && SameFrame(ns[l], l') && SameFrame(ns[r], r')
    requires ns[r].Leaf? == ns[l].Leaf?
    requires c.Some? ==> c.value in ns && c.value != l && c.value != r && c.value != q
    requires l in ns' && r in ns' && q in ns' && Kids(ns', l) == (if l'.Inner? then l'.children else [])
    requires Kids(ns', r) == (if r'.Inner? then r'.children else [])
    requires ns'[l].parent == ns[l].parent && ns'[r].parent == ns[r].parent && ns'[q].parent == ns[q].parent
    requires forall u {:trigger u in ns'} :: u in ns && u != l && u != r && u != q ==>
      u in ns' && ns'[u] == if c == Some(u) then ns[u].(parent := Some(if toRight then r else l)) else ns[u]
    requires l !in Kids(ns, l) && l !in Kids(ns, r) && r !in Kids(ns, l) && r !in Kids(ns, r) && q !in Kids(ns, l)
    requires q !in Kids(ns, r)
    ensures forall u {:trigger u in ns'} :: u in ns ==>
      u in ns' && ns'[u].parent == if u in Kids(ns', l) then Some(l) else if u in Kids(ns', r) then Some(r)
          else ns[u].parent
  {
    if c.Some? && toRight { HandedOver(Kids(ns, l), l'.children, c.value); }
    if c.Some? && !toRight {
      assert Kids(ns, r) == [c.value] + r'.children;
      HandedBack(Kids(ns, r), r'.children, c.value);
    }
    forall u | u in ns ensures
      u in ns' && ns'[u].parent == if u in Kids(ns', l) then Some(l) else if u in Kids(ns', r) then Some(r)
          else ns[u].parent {
      if u == l || u == r || u == q {
        assert c != Some(u);
        assert u !in Kids(ns', l) && u !in Kids(ns', r);
      } else {
        assert u in ns';
        assert u in Kids(ns', l) ==> u in Kids(ns, l) || c == Some(u);
        assert u in Kids(ns', r) ==> u in Kids(ns, r) || c == Some(u);
      }
    }
  }

  lemma {:induction false} HandedOver(ks: seq<NodeId>, ks': seq<NodeId>, c: NodeId)
    requires NoDup(ks) && ks == ks' + [c]
    ensures c !in ks' && c in ks
  {
    NoDupConcat(ks', [c]);
    assert c in [c];
    assert ks[|ks'|] == c;
  }

  lemma {:induction false} HandedBack(ks: seq<NodeId>, ks': seq<NodeId>, c: NodeId)
    requires NoDup(ks) && ks == [c] + ks'
    ensures c !in ks' && c in ks
  {
    NoDupConcat([c], ks');
    assert c in [c];
    assert ks[0] == c;
  }

  // ----- merging, as written

  /** n after its neighbour in the chain and its parent were told about w. */
  ghost function Heir(n: Node, u: NodeId, neighbour: Option<NodeId>, moved: seq<NodeId>, w: NodeId, toLeft: bool): Node
  {
    var m := if neighbour == Some(u) then (if toLeft then n.(prev := Some(w)) else n.(next := Some(w))) else n;
    if u in moved then m.(parent := Some(w)) else m
  }

  /** The parent without its k-th separator and without the child merged away. */
  function Unlisted(n: Node, k: nat, dead: nat): Node
    requires n.Inner? && k < |n.vals| && dead < |n.children|
  {
    n.(vals := n.vals[..k] + n.vals[k + 1..], children := n.children[..dead] + n.children[dead + 1..])
  }

  /** The records after l and r were merged into m; toLeft says that l survives. */
  ghost predicate Merged(ns: Nodes, ns': Nodes, l: NodeId, r: NodeId, m: Node, q: NodeId, k: nat, toLeft: bool)
  {
    && l in ns && r in ns && q in ns && ns[q].Inner? && k < |ns[q].vals| && |ns[q].children| == |ns[q].vals| + 1
    && Pooled(ns[l], ns[r], ns[q].vals[k], m)
    && m.parent == Some(q) && m.prev == ns[l].prev && m.next == ns[r].next
    && (if toLeft then l in ns' && ns'[l] == m else r in ns' && ns'[r] == m)
    && q in ns' && ns'[q] == Unlisted(ns[q], k, if toLeft then k + 1 else k)
    && forall u {:trigger u in ns'} :: u in ns && u != l && u != r && u != q ==>
         u in ns' && ns'[u] == (if toLeft then Heir(ns[u], u, ns[r].next, Kids(ns, r), l, true)
                                else Heir(ns[u], u, ns[l].prev, Kids(ns, l), r, false))
  }

  lemma {:induction false} MergeApart(t: Shape, root: Option<NodeId>, d: nat, l: NodeId, r: NodeId, q: NodeId, k: nat)
    requires Adjacent(t, root, d, l, r, q, k)
    ensures forall c {:trigger c in Kids(t.ns, l)} {:trigger c in Kids(t.ns, r)} ::
      c in Kids(t.ns, l) || c in Kids(t.ns, r) ==>
      c in t.ns && c != l && c != r && c != q
    ensures Adopted(t.ns, l) && Adopted(t.ns, r)
    ensures t.ns[l].prev != Some(q) && t.ns[r].next != Some(q)
  {
    KidsOf(t, root, d, l);
    KidsOf(t, root, d, r);
    KidsBelow(t, root, d, l);
    KidsBelow(t, root, d, r);
    KidsOf(t, root, d + 1, q);
    if t.ns[l].prev == Some(q) { NextIsLevel(t, root, d, l, q); }
    if t.ns[r].next == Some(q) { NextIsLevel(t, root, d, r, q); }
  }

  lemma {:induction false} MergeParents(ns: Nodes, ns': Nodes, l: NodeId, r: NodeId, q: NodeId, k: nat, m: Node,
      toLeft: bool)
    requires Merged(ns, ns', l, r, m, q, k, toLeft) && l != r && q != l && q != r
    requires ns[l].parent == Some(q) && ns[r].parent == Some(q)
    requires forall c {:trigger c in Kids(ns, l)} {:trigger c in Kids(ns, r)} ::
      c in Kids(ns, l) || c in Kids(ns, r) ==>
      c in ns && c != l && c != r && c != q
    requires Adopted(ns, l) && Adopted(ns, r)
    ensures var w := if toLeft then l else r;
      forall u {:trigger u in ns'} :: u in ns && (u == w || (u != l && u != r)) ==>
        u in ns' && ns'[u].parent == if u in Kids(ns', w) then Some(w) else ns[u].parent
  {
    var w := if toLeft then l else r;
    assert Kids(ns', w) == Kids(ns, l) + Kids(ns, r);
    forall u | u in ns && (u == w || (u != l && u != r))
      ensures u in ns' && ns'[u].parent == if u in Kids(ns', w) then Some(w) else ns[u].parent {
      assert u in Kids(ns', w) <==> u in Kids(ns, l) || u in Kids(ns, r);
      assert u != w && u != q ==> u in ns';
    }
  }

  lemma {:induction false} MergeRelinked(ns: Nodes, ns': Nodes, l: NodeId, r: NodeId, q: NodeId, k: nat, m: Node,
      toLeft: bool)
    requires Merged(ns, ns', l, r, m, q, k, toLeft) && l != r && q != l && q != r
    requires ns[l].next == Some(r) && ns[r].prev == Some(l) && ns[l].prev != Some(q) && ns[r].next != Some(q)
    requires ns[l].prev.Some? ==>
      ns[l].prev.value in ns && ns[ns[l].prev.value].next == Some(l) && ns[l].prev.value != r && ns[l].prev.value != l
    requires ns[r].next.Some? ==>
      ns[r].next.value in ns && ns[ns[r].next.value].prev == Some(r) && ns[r].next.value != l && ns[r].next.value != r
    ensures MergeLinks(ns, ns', l, r, if toLeft then l else r)
  {
    var w := if toLeft then l else r;
    forall u | u in ns && u != l && u != r
      ensures u in ns'
      ensures ns'[u].prev == (if ns[r].next == Some(u) then Some(w) else ns[u].prev)
      ensures ns'[u].next == (if ns[l].prev == Some(u) then Some(w) else ns[u].next) {
      assert u != q ==> u in ns';
    }
  }

  lemma {:induction false} MergeAssembles(ns: Nodes, ns': Nodes, l: NodeId, r: NodeId, q: NodeId, k: nat, m: Node,
      toLeft: bool)
    requires Merged(ns, ns', l, r, m, q, k, toLeft) && l != r && q != l && q != r
    requires ns[l].parent == Some(q) && ns[r].parent == Some(q) && ns[q].children[k] == l && ns[q].children[k + 1] == r
    requires forall c {:trigger c in Kids(ns, l)} {:trigger c in Kids(ns, r)} ::
      c in Kids(ns, l) || c in Kids(ns, r) ==>
      c in ns && c != l && c != r && c != q
    requires Adopted(ns, l) && Adopted(ns, r) && MergeLinks(ns, ns', l, r, if toLeft then l else r)
    ensures MergeStore(ns, ns', l, r, if toLeft then l else r, q, k)
  {
    var w := if toLeft then l else r;
    MergeParents(ns, ns', l, r, q, k, m, toLeft);
    forall u | u in ns && u != l && u != r && u != q ensures SameBody(ns, ns', u) { assert u in ns'; }
    assert ns'[q].children == ns[q].children[..k] + [w] + ns[q].children[k + 2..];
  }

  lemma {:induction false} MergeWritten(t: Shape, root: Option<NodeId>, d: nat, l: NodeId, r: NodeId, q: NodeId,
      k: nat, m: Node, toLeft: bool, ns': Nodes)
    requires Adjacent(t, root, d, l, r, q, k) && Merged(t.ns, ns', l, r, m, q, k, toLeft)
    ensures MergeStore(t.ns, ns', l, r, if toLeft then l else r, q, k)
  {
    MergeApart(t, root, d, l, r, q, k);
    SiblingLinks(t, root, d, l, r, q, k);
    MergeRelinked(t.ns, ns', l, r, q, k, m, toLeft);
    MergeAssembles(t.ns, ns', l, r, q, k, m, toLeft);
  }
}
