/** What a B+ tree index satisfies between operations: structure, node sizes, leaf
    keys, document order, and which records may be left over in the store. */
module TreeInvariant {
  import opened Lists
  import opened SortOrder
  import opened Layout
  import opened Regroup
  import opened Steps

  ghost predicate SizeOk(ns: Nodes, root: Option<NodeId>, lo: nat, hi: nat, u: NodeId)
  {
    u in ns && (if root == Some(u) then 1 else lo) <= Size(ns[u]) <= hi
  }

  /** Every reachable node but those in `except` holds lo..hi entries, the root at least one. */
  ghost predicate Sized(t: Shape, root: Option<NodeId>, lo: nat, hi: nat, except: set<NodeId>)
  {
    forall e: nat, u {:trigger u in t.levels[e]} :: e < |t.levels| && u in t.levels[e] && u !in except ==>
      SizeOk(t.ns, root, lo, hi, u)
  }

  ghost predicate LeafFirst(ns: Nodes, first: Firsts, fields: seq<SortField>, docs: Docs, u: NodeId)
  {
    && u in ns && ns[u].Leaf? && ns[u].ids != []
    && u in first && first[u] == KeyOf(fields, docs, ns[u].ids[0])
  }

  ghost predicate OnLevel(t: Shape, d: nat, u: NodeId)
  {
    d < |t.levels| && u in t.levels[d]
  }

  /** The smallest key of every leaf but those in `except` is that of its first document. */
  ghost predicate Keyed(t: Shape, fields: seq<SortField>, docs: Docs, except: set<NodeId>)
  {
    forall u {:trigger LeafFirst(t.ns, t.first, fields, docs, u)} :: OnLevel(t, 0, u) && u !in except ==>
      LeafFirst(t.ns, t.first, fields, docs, u)
  }

  /** No id beyond count is in use; the first id ever handed out, 0, only ever names a
      leaf, and a stored leaf not in `except` is reachable. */
  ghost predicate Tidy(t: Shape, count: int, except: set<NodeId>)
  {
    && count >= -1
    && (forall u {:trigger u in t.height} :: u in t.height ==> 0 <= u <= count)
    && (forall u {:trigger u in t.ns} :: u in t.ns ==>
          && 0 <= u <= count
          && (u == 0 ==> t.ns[u].Leaf?)
          && (t.ns[u].Leaf? && u !in except ==> OnLevel(t, 0, u)))
  }

  ghost predicate Precedes(fields: seq<SortField>, docs: Docs, c: seq<DocId>, i: int, j: int)
  {
    0 <= i < j < |c| ==> Comp(fields, KeyOf(fields, docs, c[i]), KeyOf(fields, docs, c[j]), false) == 1
  }

  /** Documents in strictly increasing order, each with a value for every sort field. */
  ghost predicate Sorted(fields: seq<SortField>, docs: Docs, c: seq<DocId>)
  {
    && (forall i, j {:trigger Precedes(fields, docs, c, i, j)} :: Precedes(fields, docs, c, i, j))
    && (forall i {:trigger c[i]} :: 0 <= i < |c| ==> c[i] in docs && Full(KeyOf(fields, docs, c[i])))
  }

  // ----- carrying sizes and leaf keys across a structural step

  lemma {:induction false} SizedElsewhere(t: Shape, t': Shape, root: Option<NodeId>, lo: nat, hi: nat,
      except: set<NodeId>, except': set<NodeId>, touched: set<NodeId>)
    requires Sized(t, root, lo, hi, except) && Elsewhere(t, t', touched) && except <= touched
    requires forall u {:trigger SizeOk(t'.ns, root, lo, hi, u)} :: u in touched && u !in except' ==>
      SizeOk(t'.ns, root, lo, hi, u) || forall e: nat :: !OnLevel(t', e, u)
    ensures Sized(t', root, lo, hi, except')
  {
    forall e: nat, u | e < |t'.levels| && u in t'.levels[e] && u !in except' ensures SizeOk(t'.ns, root, lo, hi, u) {
      if u in touched {
        assert OnLevel(t', e, u);
      } else {
        assert u in t.levels[e] && SameBody(t.ns, t'.ns, u);
      }
    }
  }

  lemma {:induction false} KeyedElsewhere(t: Shape, t': Shape, fields: seq<SortField>, docs: Docs,
      except: set<NodeId>, except': set<NodeId>, touched: set<NodeId>)
    requires Keyed(t, fields, docs, except) && Elsewhere(t, t', touched) && except <= touched
    requires forall u {:trigger LeafFirst(t'.ns, t'.first, fields, docs, u)} ::
      u in touched && OnLevel(t', 0, u) && u !in except' ==>
      LeafFirst(t'.ns, t'.first, fields, docs, u)
    ensures Keyed(t', fields, docs, except')
  {
    forall u | OnLevel(t', 0, u) && u !in except' ensures LeafFirst(t'.ns, t'.first, fields, docs, u) {
      if u !in touched {
        assert u in t'.levels[0];
        assert OnLevel(t, 0, u) && SameBody(t.ns, t'.ns, u) && LeafFirst(t.ns, t.first, fields, docs, u);
      }
    }
  }

  // ----- the root level grows

  lemma {:induction false} GrownSized(t: Shape, x: NodeId, r: NodeId, lo: nat, hi: nat)
    requires Tree(t, Some(x)) && r !in t.ns && x in t.ns && x in t.first
    requires Sized(t, Some(x), lo, hi, {x})
    ensures Sized(Grown(t, x, r), Some(r), lo, hi, {x, r})
  {
    var t' := Grown(t, x, r);
    forall e: nat, u | e < |t'.levels| && u in t'.levels[e] && u !in {x, r} ensures SizeOk(t'.ns, Some(r), lo, hi, u) {
      assert e < |t.levels| && u in t.levels[e];
    }
  }

  lemma {:induction false} GrownKeyed(t: Shape, x: NodeId, r: NodeId, fields: seq<SortField>, docs: Docs)
    requires Tree(t, Some(x)) && r !in t.ns && x in t.ns && x in t.first && Keyed(t, fields, docs, {})
    ensures Keyed(Grown(t, x, r), fields, docs, {})
  {
    var t' := Grown(t, x, r);
    forall u | OnLevel(t', 0, u) ensures LeafFirst(t'.ns, t'.first, fields, docs, u) {
      assert t.levels[0] == t'.levels[0] && OnLevel(t, 0, u);
      assert LeafFirst(t.ns, t.first, fields, docs, u);
    }
  }

  lemma {:induction false} GrownTidy(t: Shape, x: NodeId, r: NodeId, count: int, count': int)
    requires x in t.ns && x in t.first && t.levels != [] && Tidy(t, count, {}) && count < r <= count' && 0 < r
    ensures Tidy(Grown(t, x, r), count', {})
  {
    var t' := Grown(t, x, r);
    forall u | u in t'.ns
      ensures 0 <= u <= count' && (u == 0 ==> t'.ns[u].Leaf?) && (t'.ns[u].Leaf? ==> OnLevel(t', 0, u)) {
      if u != r {
        assert u in t.ns;
        if t.ns[u].Leaf? { assert OnLevel(t, 0, u); }
      }
    }
  }

  // ----- a split

  /** A node as the code that moves entries expects it: its neighbours, its children and
      its parent are stored, and all differ. */
  ghost predicate WellLinked(ns: Nodes, x: NodeId)
  {
    && x in ns
    && (ns[x].Inner? ==> |ns[x].children| == |ns[x].vals| + 1)
    && (ns[x].next.Some? ==> ns[x].next.value in ns && ns[x].next.value != x && ns[x].next.value !in Kids(ns, x))
    && (ns[x].prev.Some? ==> ns[x].prev.value in ns && ns[x].prev.value != x && ns[x].prev.value !in Kids(ns, x))
    && (forall i {:trigger Kids(ns, x)[i]} :: 0 <= i < |Kids(ns, x)| ==> Kids(ns, x)[i] in ns)
    && x !in Kids(ns, x) && NoDup(Kids(ns, x))
    && (ns[x].parent.Some? ==>
          var q := ns[x].parent.value;
          && q in ns && ns[q].Inner? && x in ns[q].children && |ns[q].children| == |ns[q].vals| + 1
          && NoDup(ns[q].children)
          && q !in Kids(ns, x) && ns[x].next != Some(q) && ns[x].prev != Some(q) && q != x)
  }

  lemma {:induction false} NodeIsWellLinked(t: Shape, root: Option<NodeId>, d: nat, x: NodeId)
    requires Tree(t, root) && OnLevel(t, d, x)
    ensures WellLinked(t.ns, x)
    ensures t.ns[x].parent.None? <==> root == Some(x)
    ensures t.ns[x].parent.None? <==> d + 1 == |t.levels|
    ensures t.ns[x].parent.Some? ==> OnLevel(t, d + 1, t.ns[x].parent.value)
  {
    KidsOf(t, root, d, x);
    KidsBelow(t, root, d, x);
    TopIsRoot(t, root, d, x);
    NeighboursDiffer(t, root, d, x);
    if t.ns[x].next.Some? { NextIsLevel(t, root, d, x, t.ns[x].next.value); }
    if t.ns[x].prev.Some? { NextIsLevel(t, root, d, x, t.ns[x].prev.value); }
    forall i | 0 <= i < |Kids(t.ns, x)| ensures Kids(t.ns, x)[i] in t.ns {
      var c := Kids(t.ns, x)[i];
      assert c in Kids(t.ns, x);
    }
    if d + 1 < |t.levels| { ParentIsWellLinked(t, root, d, x); }
  }

  lemma {:induction false} ParentIsWellLinked(t: Shape, root: Option<NodeId>, d: nat, x: NodeId)
    requires Tree(t, root) && OnLevel(t, d, x) && d + 1 < |t.levels| && x in t.ns
    ensures t.ns[x].parent.Some?
    ensures var q := t.ns[x].parent.value;
      && OnLevel(t, d + 1, q) && InPlace(t.ns, t.first, t.height, d + 1, q)
      && t.ns[q].Inner? && x in t.ns[q].children && |t.ns[q].children| == |t.ns[q].vals| + 1 && NoDup(t.ns[q].children)
  {
    var q, j, k := FindParent(t, root, d, x);
    KidsOf(t, root, d + 1, q);
  }

  lemma {:induction false} NeighboursDiffer(t: Shape, root: Option<NodeId>, d: nat, x: NodeId)
    requires Tree(t, root) && OnLevel(t, d, x) && x in t.ns
    ensures t.ns[x].next != Some(x) && t.ns[x].prev != Some(x)
  {
    assert LevelAt(t, d);
    var xs := t.levels[d];
    var i :| 0 <= i < |xs| && xs[i] == x;
    assert LinkedAt(t.ns, xs, i) && Differ(xs, i, xs, i + 1) && Differ(xs, i - 1, xs, i);
  }

  lemma {:induction false} SplitSized(t: Shape, t': Shape, root: Option<NodeId>, lo: nat, hi: nat, x: NodeId,
      y: NodeId, q: NodeId)
    requires Sized(t, root, lo, hi, {x, q}) && Elsewhere(t, t', {x, y, q})
    requires SizeOk(t'.ns, root, lo, hi, x) && SizeOk(t'.ns, root, lo, hi, y)
    ensures Sized(t', root, lo, hi, {q})
  {
    SizedElsewhere(t, t', root, lo, hi, {x, q}, {q}, {x, y, q});
  }

  lemma {:induction false} SplitKeyed(t: Shape, t': Shape, root: Option<NodeId>, d: nat, x: NodeId, y: NodeId,
      q: NodeId, k: nat, top: SortKey,
      fields: seq<SortField>, docs: Docs)
    requires Tree(t, root) && Tree(t', root) && OnLevel(t, d, x) && OnLevel(t', d, y) && OnLevel(t', d + 1, q)
    requires OnLevel(t', d, x)
    requires Keyed(t, fields, docs, {}) && Elsewhere(t, t', {x, y, q}) && SplitStore(t.ns, t'.ns, x, y, q, k, top)
    requires t'.first == t.first[y := top]
    requires t.ns[x].Leaf? ==> t'.ns[x].ids != [] && t'.ns[y].ids != [] && top == KeyOf(fields, docs, t'.ns[y].ids[0])
    ensures Keyed(t', fields, docs, {})
  {
    KidsOf(t, root, d, x);
    KidsOf(t', root, d, x);
    KidsOf(t', root, d, y);
    KidsOf(t', root, d + 1, q);
    assert Halves(t.ns[x], t'.ns[x], t'.ns[y], top);
    if d == 0 {
      assert LeafFirst(t.ns, t.first, fields, docs, x);
      assert LeafFirst(t'.ns, t'.first, fields, docs, x);
      assert LeafFirst(t'.ns, t'.first, fields, docs, y);
    }
    forall u | u in {x, y, q} && OnLevel(t', 0, u) ensures LeafFirst(t'.ns, t'.first, fields, docs, u) {
      KidsOf(t', root, 0, u);
    }
    KeyedElsewhere(t, t', fields, docs, {}, {}, {x, y, q});
  }

  lemma {:induction false} SplitTidy(t: Shape, t': Shape, root: Option<NodeId>, d: nat, x: NodeId, y: NodeId,
      q: NodeId, k: nat, top: SortKey,
      count: int)
    requires Tree(t', root) && Tidy(t, count, {}) && SplitStore(t.ns, t'.ns, x, y, q, k, top)
    requires OnLevel(t', d, y) && OnLevel(t', d, x) && OnLevel(t', d + 1, q) && t'.height == t.height[y := d]
    requires forall u {:trigger u in t'.ns} :: u in t'.ns ==> u in t.ns || u == y
    requires Covers(t, t', {})
    requires 0 < y <= count
    ensures Tidy(t', count, {})
  {
    KidsOf(t', root, d, x);
    KidsOf(t', root, d, y);
    KidsOf(t', root, d + 1, q);
    forall u | u in t'.ns
      ensures 0 <= u <= count && (u == 0 ==> t'.ns[u].Leaf?) && (t'.ns[u].Leaf? ==> OnLevel(t', 0, u)) {
      if u != x && u != y && u != q {
        assert u in t.ns && SameBody(t.ns, t'.ns, u);
        if t'.ns[u].Leaf? { assert OnLevel(t, 0, u) && u in t.levels[0]; }
      }
    }
  }

  /** The records written by a split, below a parent that is already there. */
  ghost predicate SplitWritten(ns: Nodes, ns1: Nodes, ns': Nodes, x: NodeId, y: NodeId, q: NodeId, k: nat,
      top: SortKey, l: Node, r: Node)
  {
    && x in ns && q in ns && ns[q].Inner? && y !in ns && k < |ns[q].children| && |ns[q].children| == |ns[q].vals| + 1
    && (forall u {:trigger u in ns1} :: u in ns && u != x && u != q ==>
          u in ns1 && ns1[u] == Ready(ns[u], u, ns[x].next, y, if r.Inner? then r.children else []))
    && (forall u {:trigger u in ns1} :: u in ns1 ==> u in ns)
    && ns' == ns1[y := r.(parent := Some(q))]
                 [q := ns[q].(vals := ns[q].vals[..k] + [top] + ns[q].vals[k..],
                     children := ns[q].children[..k] + [x, y] + ns[q].children[k + 1..])]
                 [x := l.(parent := Some(q))]
    && Halves(ns[x], l, r, top)
    && l.prev == ns[x].prev && l.next == Some(y) && r.prev == Some(x) && r.next == ns[x].next
  }

  lemma {:induction false} WrittenIsSplit(t: Shape, root: Option<NodeId>, d: nat, ns1: Nodes, ns': Nodes,
      x: NodeId, y: NodeId, q: NodeId, k: nat, top: SortKey, l: Node, r: Node)
    requires Tree(t, root) && OnLevel(t, d, x) && d + 1 < |t.levels|
    requires SplitWritten(t.ns, ns1, ns', x, y, q, k, top, l, r) && t.ns[x].parent == Some(q)
    ensures SplitStore(t.ns, ns', x, y, q, k, top)
  {
    var q', j, k' := FindParent(t, root, d, x);
    KidsOf(t, root, d + 1, q);
    KidsOf(t, root, d, x);
    KidsBelow(t, root, d, x);
    if t.ns[x].next.Some? { NextIsLevel(t, root, d, x, t.ns[x].next.value); NeighboursDiffer(t, root, d, x); }
    var moved := if r.Inner? then r.children else [];
    assert forall c :: c in moved ==> c in Kids(t.ns, x);
    forall u | u in t.ns && u != x && u != q ensures u in ns1 && ns1[u] == Ready(t.ns[u], u, t.ns[x].next, y, moved) {
      assert u in ns1;
    }
    SplitStored(t.ns, ns1, ns', x, y, q, k, top, moved, l.(parent := Some(q)), r.(parent := Some(q)), ns'[q]);
  }

  /** A split below an existing parent, as written, leads to a tree of the right sizes
      and leaf keys, up to the parent's own size. */
  lemma {:induction false} SplitEffect(t: Shape, root: Option<NodeId>, lo: nat, hi: nat, d: nat, ns1: Nodes, ns': Nodes,
      x: NodeId, y: NodeId, q: NodeId, k: nat, top: SortKey, l: Node, r: Node, fields: seq<SortField>, docs: Docs)
          returns (t': Shape)
    requires Tree(t, root) && OnLevel(t, d, x) && d + 1 < |t.levels| && y !in t.height
    requires SplitWritten(t.ns, ns1, ns', x, y, q, k, top, l, r) && t.ns[x].parent == Some(q)
    requires k == IndexOf(x, Kids(t.ns, q))
    requires Sized(t, root, lo, hi, {x, q}) && Keyed(t, fields, docs, {})
    requires root != Some(x) && root != Some(y) && lo <= Size(l) <= hi && lo <= Size(r) <= hi
    requires l.Leaf? ==> l.ids != [] && r.ids != [] && top == KeyOf(fields, docs, r.ids[0])
    ensures t'.ns == ns' && Tree(t', root) && Contents(ns', t'.levels) == Contents(t.ns, t.levels)
    ensures Sized(t', root, lo, hi, {q}) && Keyed(t', fields, docs, {})
    ensures Covers(t, t', {}) && |t'.levels| == |t.levels| && t'.height == t.height[y := d]
    ensures SplitStore(t.ns, ns', x, y, q, k, top)
    ensures OnLevel(t', d, x) && OnLevel(t', d, y) && OnLevel(t', d + 1, q)
  {
    WrittenIsSplit(t, root, d, ns1, ns', x, y, q, k, top, l, r);
    t' := SplitStep(t, root, d, x, y, q, k, top, ns');
    SplitSized(t, t', root, lo, hi, x, y, q);
    SplitKeyed(t, t', root, d, x, y, q, k, top, fields, docs);
  }

  /** What the halves of x and the touched neighbours look like before the parent is told. */
  ghost predicate Cut(ns: Nodes, ns1: Nodes, lo: nat, hi: nat, x: NodeId, y: NodeId, top: SortKey, l: Node, r: Node,
      fields: seq<SortField>, docs: Docs)
  {
    && x in ns && ns1.Keys == ns.Keys
    && (forall u {:trigger ns1[u]} :: u in ns1 ==>
      ns1[u] == Ready(ns[u], u, ns[x].next, y, if r.Inner? then r.children else []))
    && Halves(ns[x], l, r, top)
    && (l.Leaf? ==> l.ids != [] && r.ids != [] && top == KeyOf(fields, docs, r.ids[0]))
    && l.prev == ns[x].prev && l.next == Some(y)
    && r.prev == Some(x) && r.next == ns[x].next
    && lo <= Size(l) <= hi && lo <= Size(r) <= hi
  }

  /** A parent that lists y right after its k-th child x. */
  ghost function WithChild(n: Node, k: nat, x: NodeId, y: NodeId, top: SortKey): Node
    requires n.Inner? && k < |n.children| && |n.children| == |n.vals| + 1
  {
    n.(vals := n.vals[..k] + [top] + n.vals[k..], children := n.children[..k] + [x, y] + n.children[k + 1..])
  }

  /** Between operations. */
  ghost predicate Sane(t: Shape, root: Option<NodeId>, count: int, lo: nat, hi: nat, fields: seq<SortField>,
      docs: Docs, odd: set<NodeId>)
  {
    Tree(t, root) && Sized(t, root, lo, hi, odd) && Keyed(t, fields, docs, {}) && Tidy(t, count, {})
  }

  /** The records after x was cut and its parent q told. */
  ghost function Cutout(ns: Nodes, ns1: Nodes, x: NodeId, y: NodeId, q: NodeId, top: SortKey, l: Node, r: Node): Nodes
    requires q in ns && ns[q].Inner? && x in ns[q].children && |ns[q].children| == |ns[q].vals| + 1
  {
    ns1[y := r.(parent := Some(q))][q := WithChild(ns[q], IndexOf(x, ns[q].children), x, y,
        top)][x := l.(parent := Some(q))]
  }

  lemma {:induction false} SplitBelowParent(t: Shape, root: Option<NodeId>, count: int, lo: nat, hi: nat,
      fields: seq<SortField>, docs: Docs,
      d: nat, x: NodeId, y: NodeId, q: NodeId, top: SortKey, l: Node, r: Node, ns1: Nodes) returns (t': Shape)
    requires Tree(t, root) && OnLevel(t, d, x) && d + 1 < |t.levels|
    requires Sized(t, root, lo, hi, {x, q}) && Keyed(t, fields, docs, {}) && Tidy(t, count, {})
    requires Cut(t.ns, ns1, lo, hi, x, y, top, l, r, fields, docs) && t.ns[x].parent == Some(q) && 0 < y <= count
    requires y !in t.ns && y !in t.height && root != Some(y)
    requires q in t.ns && t.ns[q].Inner? && x in t.ns[q].children && |t.ns[q].children| == |t.ns[q].vals| + 1
    ensures t'.ns == Cutout(t.ns, ns1, x, y, q, top, l, r) && Sane(t', root, count, lo, hi, fields, docs, {q})
    ensures Contents(t'.ns, t'.levels) == Contents(t.ns, t.levels) && |t'.levels| == |t.levels|
    ensures OnLevel(t', d + 1, q)
  {
    TopIsRoot(t, root, d, x);
    var k := IndexOf(x, Kids(t.ns, q));
    assert Kids(t.ns, q) == t.ns[q].children;
    var ns' := Cutout(t.ns, ns1, x, y, q, top, l, r);
    t' := SplitEffect(t, root, lo, hi, d, ns1, ns', x, y, q, k, top, l, r, fields, docs);
    SplitTidy(t, t', root, d, x, y, q, k, top, count);
  }

  /** Cutting the root: seen from the tree grown by the new root q, q is an existing parent. */
  lemma {:induction false} CutUnderNewRoot(t: Shape, lo: nat, hi: nat, fields: seq<SortField>, docs: Docs,
      d: nat, x: NodeId, y: NodeId, q: NodeId, top: SortKey, l: Node, r: Node, ns1: Nodes)
    requires Tree(t, Some(x)) && OnLevel(t, d, x) && q !in t.ns && x in t.first && q != y
    requires Cut(t.ns, ns1, lo, hi, x, y, top, l, r, fields, docs)
    ensures x in t.ns
    ensures var g := Grown(t, x, q); var ns2 := ns1[q := g.ns[q]][x := g.ns[x]];
      && Cut(g.ns, ns2, lo, hi, x, y, top, l, r, fields, docs)
      && x in g.ns[q].children && |g.ns[q].children| == |g.ns[q].vals| + 1
      && Cutout(g.ns, ns2, x, y, q, top, l,
        r) == ns1[y := r.(parent := Some(q))][q := Inner([top], [x, y], None, None, None)][x := l.(parent := Some(q))]
  {
    var g := Grown(t, x, q);
    var ns2 := ns1[q := g.ns[q]][x := g.ns[x]];
    KidsOf(t, Some(x), d, x);
    KidsBelow(t, Some(x), d, x);
    NodeIsWellLinked(t, Some(x), d, x);
    NeighboursDiffer(t, Some(x), d, x);
    var moved := if r.Inner? then r.children else [];
    assert forall c :: c in moved ==> c in Kids(t.ns, x);
    forall u | u in ns2 ensures ns2[u] == Ready(g.ns[u], u, g.ns[x].next, y, moved) {
      if u != q && u != x { assert ns1[u] == Ready(t.ns[u], u, t.ns[x].next, y, moved); }
    }
    assert IndexOf(x, [x]) == 0;
    assert WithChild(g.ns[q], 0, x, y, top) == Inner([top], [x, y], None, None, None);
  }

  lemma {:induction false} SplitAtRoot(t: Shape, count: int, lo: nat, hi: nat, fields: seq<SortField>, docs: Docs,
      d: nat, x: NodeId, y: NodeId, q: NodeId, top: SortKey, l: Node, r: Node, ns1: Nodes) returns (t': Shape)
    requires Sane(t, Some(x), count, lo, hi, fields, docs, {x}) && OnLevel(t, d, x) && x in t.ns && t.ns[x].parent.None?
    requires Cut(t.ns, ns1, lo, hi, x, y, top, l, r, fields, docs) && y == count + 1 && q == count + 2 && y > 0
    ensures t'.ns == ns1[y := r.(parent := Some(q))][q := Inner([top], [x, y], None, None,
      None)][x := l.(parent := Some(q))]
    ensures Sane(t', Some(q), count + 2, lo, hi, fields, docs, {q})
    ensures Contents(t'.ns, t'.levels) == Contents(t.ns, t.levels) && OnLevel(t', d + 1, q)
  {
    KidsOf(t, Some(x), d, x);
    NodeIsWellLinked(t, Some(x), d, x);
    Grow(t, x, q);
    CutUnderNewRoot(t, lo, hi, fields, docs, d, x, y, q, top, l, r, ns1);
    GrownSized(t, x, q, lo, hi);
    GrownKeyed(t, x, q, fields, docs);
    GrownTidy(t, x, q, count, count + 2);
    var g := Grown(t, x, q);
    t' := SplitBelowParent(g, Some(q), count + 2, lo, hi, fields, docs, d, x, y, q, top, l, r,
        ns1[q := g.ns[q]][x := g.ns[x]]);
  }

  lemma {:induction false} SplitUnderParent(t: Shape, root: Option<NodeId>, count: int, lo: nat, hi: nat,
      fields: seq<SortField>, docs: Docs,
      d: nat, x: NodeId, y: NodeId, q: NodeId, top: SortKey, l: Node, r: Node, ns1: Nodes) returns (t': Shape)
    requires Sane(t, root, count, lo, hi, fields, docs, {x}) && OnLevel(t, d, x) && x in t.ns
    requires t.ns[x].parent == Some(q)
    requires Cut(t.ns, ns1, lo, hi, x, y, top, l, r, fields, docs) && y == count + 1 && y > 0
    ensures q in t.ns && t.ns[q].Inner? && x in t.ns[q].children && |t.ns[q].children| == |t.ns[q].vals| + 1
    ensures t'.ns == Cutout(t.ns, ns1, x, y, q, top, l, r) && Sane(t', root, count + 1, lo, hi, fields, docs, {q})
    ensures Contents(t'.ns, t'.levels) == Contents(t.ns, t.levels) && |t'.levels| == |t.levels|
    ensures OnLevel(t', d + 1, q) && SizeOk(t.ns, root, lo, hi, q) && d + 1 < |t.levels|
  {
    NodeIsWellLinked(t, root, d, x);
    assert q in t.levels[d + 1];
    KidsBelow(t, root, d + 1, q);
    TopIsRoot(t, root, d, x);
    assert q != x by { KidsOf(t, root, d, x); KidsOf(t, root, d + 1, q); }
    t' := SplitBelowParent(t, root, count + 1, lo, hi, fields, docs, d, x, y, q, top, l, r, ns1);
  }

  /** How the records change when x is split, with or without a new root. */
  ghost predicate SplitRecords(ns: Nodes, root: Option<NodeId>, root': Option<NodeId>, count: int, count': int,
      lo: nat, hi: nat,
      fields: seq<SortField>, docs: Docs, x: NodeId, y: NodeId, q: NodeId, p: Node, top: SortKey, l: Node, r: Node,
          ns1: Nodes, ns': Nodes)
  {
    && Cut(ns, ns1, lo, hi, x, y, top, l, r, fields, docs) && y == count + 1
    && (if ns[x].parent.None? then
          q == count + 2 && count' == count + 2 && root' == Some(q) && p == Inner([top], [x, y], None, None, None)
        else
          && ns[x].parent == Some(q) && count' == count + 1 && root' == root
          && q in ns && ns[q].Inner? && x in ns[q].children && |ns[q].children| == |ns[q].vals| + 1
          && p == WithChild(ns[q], IndexOf(x, ns[q].children), x, y, top))
    && ns' == ns1[y := r.(parent := Some(q))][q := p][x := l.(parent := Some(q))]
  }

  /** One split, with or without a new root. */
  lemma {:induction false} SplitWhole(t: Shape, root: Option<NodeId>, root': Option<NodeId>, count: int, count': int,
      lo: nat, hi: nat,
      fields: seq<SortField>, docs: Docs, d: nat, x: NodeId, y: NodeId, q: NodeId, p: Node, top: SortKey, l: Node,
          r: Node, ns1: Nodes, ns': Nodes)
      returns (t': Shape)
    requires Sane(t, root, count, lo, hi, fields, docs, {x}) && OnLevel(t, d, x) && x in t.ns
    requires SplitRecords(t.ns, root, root', count, count', lo, hi, fields, docs, x, y, q, p, top, l, r, ns1, ns')
    ensures t'.ns == ns' && Sane(t', root', count', lo, hi, fields, docs, {q})
    ensures Contents(t'.ns, t'.levels) == Contents(t.ns, t.levels) && OnLevel(t', d + 1, q) && q in ns'
    ensures SizeOk(ns', root', lo, hi + 1, q)
    ensures Size(ns'[q]) == 1 || (|t'.levels| == |t.levels| && d + 1 < |t.levels|)
  {
    NodeIsWellLinked(t, root, d, x);
    if t.ns[x].parent.None? {
      t' := SplitAtRoot(t, count, lo, hi, fields, docs, d, x, y, q, top, l, r, ns1);
    } else {
      t' := SplitUnderParent(t, root, count, lo, hi, fields, docs, d, x, y, q, top, l, r, ns1);
    }
  }
}
