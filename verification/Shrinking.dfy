/** How node sizes, leaf keys and left-over records fare when a node that lost an entry
    borrows from a sibling, merges with one, or leaves the root level empty. */
module Shrinking {
  import opened Lists
  import opened SortOrder
  import opened Layout
  import opened Regroup
  import opened Steps
  import opened Siblings
  import opened TreeInvariant
  import opened Descent
  import opened Removal

  /** A tree in which only x may be one entry short. */
  ghost predicate Thin(t: Shape, root: Option<NodeId>, count: int, lo: nat, hi: nat, d: nat, x: NodeId,
      odd: set<NodeId>)
  {
    && Tree(t, root) && OnLevel(t, d, x) && x in t.ns
    && Sized(t, root, lo, hi, {x}) && Size(t.ns[x]) <= hi && (root == Some(x) || lo <= Size(t.ns[x]) + 1)
    && Tidy(t, count, odd)
  }

  ghost predicate Whole(t: Shape, root: Option<NodeId>, count: int, lo: nat, hi: nat, odd: set<NodeId>)
  {
    Tree(t, root) && Sized(t, root, lo, hi, {}) && Tidy(t, count, odd)
  }

  /** The leaves are the same and keep their documents and smallest keys. */
  ghost predicate LeavesKept(t: Shape, t': Shape)
  {
    && t.levels != [] && t'.levels != [] && t'.levels[0] == t.levels[0]
    && forall u {:trigger SameBody(t.ns, t'.ns, u)} {:trigger SameFirst(t.first, t'.first, u)} :: u in t.levels[0] ==>
         SameBody(t.ns, t'.ns, u) && SameFirst(t.first, t'.first, u)
  }

  lemma {:induction false} KeptSelf(t: Shape, root: Option<NodeId>)
    requires Tree(t, root) && t.levels != []
    ensures LeavesKept(t, t)
  {
    assert LevelAt(t, 0);
    forall u | u in t.levels[0] ensures SameBody(t.ns, t.ns, u) && SameFirst(t.first, t.first, u) {
      assert InPlace(t.ns, t.first, t.height, 0, u);
    }
  }

  lemma {:induction false} KeptTwice(t: Shape, t1: Shape, t2: Shape)
    requires LeavesKept(t, t1) && LeavesKept(t1, t2)
    ensures LeavesKept(t, t2)
  {
    forall u | u in t.levels[0] ensures SameBody(t.ns, t2.ns, u) && SameFirst(t.first, t2.first, u) {
      assert SameBody(t.ns, t1.ns, u) && SameBody(t1.ns, t2.ns, u);
    }
  }

  lemma {:induction false} KeptKeys(t: Shape, t': Shape, fields: seq<SortField>, docs: Docs, except: set<NodeId>)
    requires LeavesKept(t, t') && Keyed(t, fields, docs, except)
    ensures Keyed(t', fields, docs, except)
  {
    forall u | OnLevel(t', 0, u) && u !in except ensures LeafFirst(t'.ns, t'.first, fields, docs, u) {
      assert OnLevel(t, 0, u) && LeafFirst(t.ns, t.first, fields, docs, u) && SameBody(t.ns, t'.ns, u);
    }
  }

  lemma {:induction false} HighUp(t: Shape, t': Shape, root: Option<NodeId>, d: nat, l: NodeId, r: NodeId, q: NodeId)
    requires Tree(t, root) && OnLevel(t, d, l) && OnLevel(t, d, r) && OnLevel(t, d + 1, q) && d > 0
    requires Elsewhere(t, t', {l, r, q}) && t'.levels != [] && t'.levels[0] == t.levels[0]
    ensures LeavesKept(t, t')
  {
    forall u | u in t.levels[0] ensures SameBody(t.ns, t'.ns, u) && SameFirst(t.first, t'.first, u) {
      LevelsApart(t, root, 0, u, d, l);
      LevelsApart(t, root, 0, u, d, r);
      LevelsApart(t, root, 0, u, d + 1, q);
      assert u in t'.levels[0];
    }
  }

  // ----- borrowing

  lemma {:induction false} BorrowTidy(t: Shape, t': Shape, count: int, odd: set<NodeId>)
    requires Tidy(t, count, odd) && t'.levels == t.levels && t'.height == t.height
    requires forall u {:trigger u in t'.ns} :: u in t'.ns ==> u in t.ns && t'.ns[u].Leaf? == t.ns[u].Leaf?
    ensures Tidy(t', count, odd)
  {
    forall u | u in t'.ns
      ensures 0 <= u <= count && (u == 0 ==> t'.ns[u].Leaf?) && (t'.ns[u].Leaf? && u !in odd ==> OnLevel(t', 0, u)) {
      assert u in t.ns;
      assert t.ns[u].Leaf? && u !in odd ==> OnLevel(t, 0, u);
    }
  }

  lemma {:induction false} BorrowSized(t: Shape, t': Shape, root: Option<NodeId>, lo: nat, hi: nat, x: NodeId,
      l: NodeId, r: NodeId, q: NodeId)
    requires Sized(t, root, lo, hi, {x}) && Elsewhere(t, t', {l, r, q}) && (x == l || x == r) && q != x
    requires q in t.ns && q in t'.ns && Size(t'.ns[q]) == Size(t.ns[q])
    requires exists e: nat :: OnLevel(t, e, q)
    requires SizeOk(t'.ns, root, lo, hi, l) && SizeOk(t'.ns, root, lo, hi, r)
    ensures Sized(t', root, lo, hi, {})
  {
    var e: nat :| OnLevel(t, e, q);
    assert q in t.levels[e] && SizeOk(t.ns, root, lo, hi, q);
    SizedElsewhere(t, t', root, lo, hi, {x}, {}, {l, r, q});
  }

  /** Whatever x borrows, from the left or from the right, no node is short any more. */
  lemma {:induction false} BorrowEffect(t: Shape, root: Option<NodeId>, count: int, lo: nat, hi: nat, d: nat,
      x: NodeId, odd: set<NodeId>,
      l: NodeId, r: NodeId, q: NodeId, k: nat, sep: SortKey, l': Node, r': Node, q': Node, c: Option<NodeId>,
          toRight: bool) returns (t': Shape)
    requires Thin(t, root, count, lo, hi, d, x, odd) && Adjacent(t, root, d, l, r, q, k) && (x == l || x == r)
    requires SameFrame(t.ns[l], l') && SameFrame(t.ns[r], r') && q' == t.ns[q].(vals := t.ns[q].vals[k := sep])
    requires Shares(t.ns[l], t.ns[r], t.ns[q].vals[k], l', r', sep) && Handed(t.ns[l], t.ns[r], l', r', c, toRight)
    requires lo <= Size(l') <= hi && lo <= Size(r') <= hi
    ensures t' == Shape(Borrowed(t.ns, l, l', r, r', q, q', c, toRight), t.levels, t.first[r := sep], t.height)
    ensures Whole(t', root, count, lo, hi, odd) && Contents(t'.ns, t'.levels) == Contents(t.ns, t.levels)
    ensures Elsewhere(t, t', {l, r, q})
  {
    BorrowWritten(t, root, d, l, r, q, k, sep, l', r', q', c, toRight);
    t' := BorrowStep(t, root, d, l, r, q, k, sep, Borrowed(t.ns, l, l', r, r', q, q', c, toRight));
    BorrowSizes(t, t', root, lo, hi, d, x, l, r, q, k, sep, l', r', q', c, toRight);
    BorrowKinds(t.ns, l, r, q, l', r', q', c, toRight);
    BorrowTidy(t, t', count, odd);
  }

  lemma {:induction false} BorrowKinds(ns: Nodes, l: NodeId, r: NodeId, q: NodeId, l': Node, r': Node, q': Node,
      c: Option<NodeId>, toRight: bool)
    requires l in ns && r in ns && q in ns && SameFrame(ns[l], l') && SameFrame(ns[r], r') && q'.Leaf? == ns[q].Leaf?
    ensures forall u {:trigger u in Borrowed(ns, l, l', r, r', q, q', c, toRight)} ::
      u in Borrowed(ns, l, l', r, r', q, q', c, toRight) ==>
      u in ns && Borrowed(ns, l, l', r, r', q, q', c, toRight)[u].Leaf? == ns[u].Leaf?
  {
  }

  lemma {:induction false} BorrowSizes(t: Shape, t': Shape, root: Option<NodeId>, lo: nat, hi: nat, d: nat, x: NodeId,
      l: NodeId, r: NodeId, q: NodeId, k: nat, sep: SortKey, l': Node, r': Node, q': Node, c: Option<NodeId>,
          toRight: bool)
    requires Sized(t, root, lo, hi, {x}) && Adjacent(t, root, d, l, r, q, k) && (x == l || x == r)
    requires q' == t.ns[q].(vals := t.ns[q].vals[k := sep])
    requires lo <= Size(l') <= hi && lo <= Size(r') <= hi
    requires t'.ns == Borrowed(t.ns, l, l', r, r', q, q', c, toRight) && Elsewhere(t, t', {l, r, q})
    ensures Sized(t', root, lo, hi, {})
  {
    NodeIsWellLinked(t, root, d, l);
    NodeIsWellLinked(t, root, d, r);
    assert Size(t'.ns[l]) == Size(l') && Size(t'.ns[r]) == Size(r') && Size(t'.ns[q]) == Size(t.ns[q]);
    BorrowSized(t, t', root, lo, hi, x, l, r, q);
  }

  // ----- merging

  lemma {:induction false} MergeTidy(t: Shape, t': Shape, root: Option<NodeId>, d: nat, l: NodeId, r: NodeId,
      w: NodeId, count: int, odd: set<NodeId>, odd': set<NodeId>)
    requires Tree(t, root) && OnLevel(t, d, l) && OnLevel(t, d, r) && (w == l || w == r)
    requires Tidy(t, count, odd) && t'.height == t.height && Covers(t, t', {l, r}) && OnLevel(t', d, w)
    requires forall u {:trigger u in t'.ns} :: u in t'.ns ==> u in t.ns && t'.ns[u].Leaf? == t.ns[u].Leaf?
    requires odd <= odd' && (d == 0 ==> (if w == l then r else l) in odd')
    ensures Tidy(t', count, odd')
  {
    KidsOf(t, root, d, l);
    KidsOf(t, root, d, r);
    forall u | u in t'.ns
      ensures 0 <= u <= count && (u == 0 ==> t'.ns[u].Leaf?) && (t'.ns[u].Leaf? && u !in odd' ==> OnLevel(t', 0, u)) {
      assert u in t.ns;
      assert t.ns[u].Leaf? && u !in odd ==> OnLevel(t, 0, u) && u in t.levels[0];
    }
  }

  lemma {:induction false} MergeSized(t: Shape, t': Shape, root: Option<NodeId>, lo: nat, hi: nat, d: nat, x: NodeId,
      l: NodeId, r: NodeId, w: NodeId, q: NodeId)
    requires Tree(t, root) && Tree(t', root) && OnLevel(t, d, l) && OnLevel(t, d, r)
    requires Sized(t, root, lo, hi, {x}) && Elsewhere(t, t', {l, r, q}) && (x == l || x == r) && (w == l || w == r)
    requires t'.height == t.height && SizeOk(t'.ns, root, lo, hi, w) && (if w == l then r else l) !in t'.levels[d]
    ensures Sized(t', root, lo, hi, {q})
  {
    var dead := if w == l then r else l;
    forall e: nat ensures !OnLevel(t', e, dead) {
      if OnLevel(t', e, dead) {
        KidsOf(t', root, e, dead);
        KidsOf(t, root, d, dead);
      }
    }
    SizedElsewhere(t, t', root, lo, hi, {x}, {q}, {l, r, q});
  }

  ghost predicate SameKinds(ns: Nodes, ns': Nodes)
  {
    forall u {:trigger u in ns'} :: u in ns' ==> u in ns && ns'[u].Leaf? == ns[u].Leaf?
  }

  /** After a merge only the parent may be one entry short; the merged-away node is left over. */
  lemma {:induction false} MergeEffect(t: Shape, root: Option<NodeId>, count: int, lo: nat, hi: nat, d: nat, x: NodeId,
      odd: set<NodeId>,
      l: NodeId, r: NodeId, q: NodeId, k: nat, m: Node, toLeft: bool, ns': Nodes, odd': set<NodeId>) returns (t': Shape)
    requires Thin(t, root, count, lo, hi, d, x, odd) && Adjacent(t, root, d, l, r, q, k) && (x == l || x == r)
    requires Merged(t.ns, ns', l, r, m, q, k, toLeft) && SameKinds(t.ns, ns') && lo <= Size(m) <= hi
    requires odd <= odd' && (d == 0 ==> (if toLeft then r else l) in odd')
    ensures t'.ns == ns' && Thin(t', root, count, lo, hi, d + 1, q, odd')
    ensures Contents(t'.ns, t'.levels) == Contents(t.ns, t.levels)
    ensures l in t.first && t'.first == t.first[if toLeft then l else r := t.first[l]]
    ensures Elsewhere(t, t', {l, r, q}) && t'.height == t.height
    ensures |t'.levels| == |t.levels| && forall e: nat :: e < |t.levels| && e != d ==> t'.levels[e] == t.levels[e]
    ensures OnLevel(t', d, if toLeft then l else r) && !OnLevel(t', d, if toLeft then r else l)
    ensures Covers(t, t', {l, r})
  {
    var w := if toLeft then l else r;
    MergeWritten(t, root, d, l, r, q, k, m, toLeft, ns');
    t' := MergeStep(t, root, d, l, r, w, q, k, ns');
    MergeSizes(t, t', root, count, lo, hi, d, x, odd, l, r, q, k, m, toLeft);
    MergeTidy(t, t', root, d, l, r, w, count, odd, odd');
  }

  lemma {:induction false} MergeSizes(t: Shape, t': Shape, root: Option<NodeId>, count: int, lo: nat, hi: nat, d: nat,
      x: NodeId, odd: set<NodeId>,
      l: NodeId, r: NodeId, q: NodeId, k: nat, m: Node, toLeft: bool)
    requires Thin(t, root, count, lo, hi, d, x, odd) && Adjacent(t, root, d, l, r, q, k) && (x == l || x == r)
    requires Merged(t.ns, t'.ns, l, r, m, q, k, toLeft) && lo <= Size(m) <= hi
    requires Tree(t', root) && Elsewhere(t, t', {l, r, q}) && t'.height == t.height
    requires (if toLeft then r else l) !in t'.levels[d]
    ensures Sized(t', root, lo, hi, {q}) && Size(t'.ns[q]) <= hi && (root == Some(q) || lo <= Size(t'.ns[q]) + 1)
  {
    var w := if toLeft then l else r;
    NodeIsWellLinked(t, root, d, w);
    assert SizeOk(t'.ns, root, lo, hi, w);
    MergeSized(t, t', root, lo, hi, d, x, l, r, w, q);
    assert q in t.levels[d + 1] && SizeOk(t.ns, root, lo, hi, q);
    assert Size(t'.ns[q]) + 1 == Size(t.ns[q]);
  }

  // ----- the root level goes

  lemma {:induction false} ShrinkSized(t: Shape, ns': Nodes, r: NodeId, c: NodeId, lo: nat, hi: nat)
    requires Tree(t, Some(r)) && |t.levels| >= 2 && ShrunkStore(t.ns, ns', r, c) && Sized(t, Some(r), lo, hi, {r})
    requires lo >= 1
    ensures Sized(Shrunk(t, ns'), Some(c), lo, hi, {})
  {
    var t' := Shrunk(t, ns');
    forall e: nat, u | e < |t'.levels| && u in t'.levels[e] ensures SizeOk(ns', Some(c), lo, hi, u) {
      ShrunkStays(t, ns', r, c, e, u);
      TopIsRoot(t, Some(r), e, u);
      assert u in t.levels[e] && SizeOk(t.ns, Some(r), lo, hi, u);
    }
  }

  lemma {:induction false} ShrinkKeeps(t: Shape, ns': Nodes, r: NodeId, c: NodeId)
    requires Tree(t, Some(r)) && |t.levels| >= 2 && ShrunkStore(t.ns, ns', r, c)
    ensures LeavesKept(t, Shrunk(t, ns'))
  {
    assert LevelAt(t, 0);
    forall u | u in t.levels[0] ensures SameBody(t.ns, ns', u) && SameFirst(t.first, t.first, u) {
      ShrunkStays(t, ns', r, c, 0, u);
    }
  }

  /** A root without separators hands over to its only child. */
  lemma {:induction false} ShrinkEffect(t: Shape, count: int, lo: nat, hi: nat, d: nat, r: NodeId, c: NodeId,
      odd: set<NodeId>, ns': Nodes)
    requires Thin(t, Some(r), count, lo, hi, d, r, odd) && d > 0 && lo >= 1 && Kids(t.ns, r) == [c]
    requires ShrunkStore(t.ns, ns', r, c) && SameKinds(t.ns, ns')
    ensures Whole(Shrunk(t, ns'), Some(c), count, lo, hi, odd) && LeavesKept(t, Shrunk(t, ns'))
    ensures Contents(ns', Shrunk(t, ns').levels) == Contents(t.ns, t.levels)
  {
    TopIsRoot(t, Some(r), d, r);
    Shrink(t, ns', r, c);
    ShrinkSized(t, ns', r, c, lo, hi);
    ShrinkKeeps(t, ns', r, c);
  }

  // ----- left-over records

  /** Every reachable record is as before. */
  ghost predicate SameReachable(t: Shape, ns': Nodes)
  {
    forall e: nat, u {:trigger OnLevel(t, e, u)} :: OnLevel(t, e, u) && u in t.ns ==> u in ns' && ns'[u] == t.ns[u]
  }

  lemma {:induction false} LeftOverStays(t: Shape, root: Option<NodeId>, ns': Nodes, d: nat)
    requires Tree(t, root) && SameReachable(t, ns') && d < |t.levels|
    ensures forall u {:trigger Stays(t, t.(ns := ns'), u)} :: u in t.levels[d] ==>
      Stays(t, t.(ns := ns'), u) && SameParent(t.ns, ns', u)
    ensures forall u {:trigger SameBody(t.ns, ns', u)} :: u in t.levels[d] ==>
      SameBody(t.ns, ns', u) && SameFirst(t.first, t.first, u)
  {
    assert LevelAt(t, d);
    forall u | u in t.levels[d]
        ensures Stays(t, t.(ns := ns'), u) && SameParent(t.ns, ns', u) && SameFirst(t.first, t.first, u) {
      assert InPlace(t.ns, t.first, t.height, d, u) && OnLevel(t, d, u);
    }
  }

  lemma {:induction false} LeftOverTree(t: Shape, root: Option<NodeId>, ns': Nodes)
    requires Tree(t, root) && SameReachable(t, ns')
    ensures Tree(t.(ns := ns'), root)
  {
    var t' := t.(ns := ns');
    if t.levels != [] {
      assert t.levels[|t.levels| - 1][0] == root.value;
      assert OnLevel(t, |t.levels| - 1, root.value);
    }
    forall d: nat ensures LevelAt(t', d) {
      if d < |t.levels| {
        LeftOverStays(t, root, ns', d);
        assert LevelAt(t, d);
        LevelKept(t, t', d);
      }
    }
    forall d: nat ensures JoinedAt(t', d) {
      if d + 1 < |t.levels| {
        LeftOverStays(t, root, ns', d);
        LeftOverStays(t, root, ns', d + 1);
        assert JoinedAt(t, d);
        forall u | u in t.levels[d + 1] ensures Stays(t, t', u) {}
        forall u | u in t.levels[d] ensures Stays(t, t', u) && SameParent(t.ns, t'.ns, u) {}
        JoinKept(t, t', d);
      }
    }
  }

  /** Writing or deleting unreachable records changes nothing. */
  lemma {:induction false} LeftOver(t: Shape, root: Option<NodeId>, lo: nat, hi: nat, ns': Nodes)
    requires Tree(t, root) && Sized(t, root, lo, hi, {}) && SameReachable(t, ns')
    ensures Tree(t.(ns := ns'), root) && Sized(t.(ns := ns'), root, lo, hi, {})
    ensures Contents(ns', t.levels) == Contents(t.ns, t.levels) && (t.levels != [] ==> LeavesKept(t, t.(ns := ns')))
  {
    var t' := t.(ns := ns');
    LeftOverTree(t, root, ns');
    if t.levels != [] {
      LeftOverStays(t, root, ns', 0);
      KidsFrame(t.ns, ns', t.levels[0]);
    }
    forall e: nat, u | e < |t'.levels| && u in t'.levels[e] ensures SizeOk(ns', root, lo, hi, u) {
      assert SizeOk(t.ns, root, lo, hi, u) && OnLevel(t, e, u);
    }
  }

  lemma {:induction false} SiblingSize(t: Shape, root: Option<NodeId>, count: int, lo: nat, hi: nat, d: nat, x: NodeId,
      odd: set<NodeId>,
      l: NodeId, r: NodeId, q: NodeId, k: nat, y: NodeId)
    requires Thin(t, root, count, lo, hi, d, x, odd) && Adjacent(t, root, d, l, r, q, k)
    requires x == l || x == r
    requires y == l || y == r
    requires y != x
    ensures lo <= Size(t.ns[y]) <= hi && t.ns[y].Leaf? == (d == 0) == t.ns[x].Leaf?
    ensures d > 0 ==> |t.ns[y].children| == |t.ns[y].vals| + 1 && |t.ns[x].children| == |t.ns[x].vals| + 1
    ensures root != Some(x) && root != Some(y)
  {
    KidsOf(t, root, d, x);
    KidsOf(t, root, d, y);
    NodeIsWellLinked(t, root, d, x);
    NodeIsWellLinked(t, root, d, y);
    assert y in t.levels[d] && SizeOk(t.ns, root, lo, hi, y);
  }

  /** A node below the root has a sibling on at least one side. */
  lemma {:induction false} HasSibling(t: Shape, root: Option<NodeId>, count: int, lo: nat, hi: nat, d: nat, x: NodeId,
      odd: set<NodeId>, q: NodeId)
    requires Thin(t, root, count, lo, hi, d, x, odd) && t.ns[x].parent == Some(q) && lo >= 1
    ensures OnLevel(t, d + 1, q) && q in t.ns && t.ns[q].Inner? && |t.ns[q].children| == |t.ns[q].vals| + 1 && q != x
    ensures root != Some(x)
    ensures var k := IndexOf(x, t.ns[q].children);
      && 0 <= k && 2 <= |t.ns[q].children|
      && (k > 0 ==> Adjacent(t, root, d, t.ns[q].children[k - 1], x, q, k - 1))
      && (k + 1 < |t.ns[q].children| ==> Adjacent(t, root, d, x, t.ns[q].children[k + 1], q, k))
  {
    NodeIsWellLinked(t, root, d, x);
    assert q in t.levels[d + 1] && SizeOk(t.ns, root, lo, hi, q);
    var k := IndexOf(x, t.ns[q].children);
    assert Kids(t.ns, q) == t.ns[q].children;
    if k > 0 { SiblingsOf(t, root, d, q, k - 1); }
    if k + 1 < |t.ns[q].children| { SiblingsOf(t, root, d, q, k); }
  }

  /** What the code that merges l and r relies on. */
  ghost predicate Mergeable(ns: Nodes, l: NodeId, r: NodeId, q: NodeId, k: nat)
  {
    && l in ns && r in ns && q in ns && l != r && l != q && r != q
    && ns[l].parent == Some(q) && ns[r].parent == Some(q) && ns[l].Leaf? == ns[r].Leaf?
    && (ns[l].Inner? ==> |ns[l].children| == |ns[l].vals| + 1 && |ns[r].children| == |ns[r].vals| + 1)
    && ns[q].Inner? && k < |ns[q].vals| && |ns[q].children| == |ns[q].vals| + 1
    && (forall c {:trigger c in Kids(ns, l)} {:trigger c in Kids(ns, r)} :: c in Kids(ns, l) || c in Kids(ns, r) ==>
          c in ns && c != l && c != r && c != q)
    && ns[l].next == Some(r) && ns[r].prev == Some(l) && ns[l].prev != Some(q) && ns[r].next != Some(q)
    && (ns[l].prev.Some? ==> ns[l].prev.value in ns && ns[l].prev.value != r && ns[l].prev.value != l)
    && (ns[r].next.Some? ==> ns[r].next.value in ns && ns[r].next.value != l && ns[r].next.value != r)
  }

  lemma {:induction false} AdjacentMergeable(t: Shape, root: Option<NodeId>, count: int, lo: nat, hi: nat, d: nat,
      x: NodeId, odd: set<NodeId>,
      l: NodeId, r: NodeId, q: NodeId, k: nat)
    requires Thin(t, root, count, lo, hi, d, x, odd) && Adjacent(t, root, d, l, r, q, k) && (x == l || x == r)
    ensures Mergeable(t.ns, l, r, q, k)
    ensures var y := if x == l then r else l; lo <= Size(t.ns[y]) <= hi && t.ns[y].Leaf? == (d == 0)
    ensures lo <= Size(t.ns[x]) + 1 && t.ns[x].Leaf? == (d == 0) && root != Some(x)
  {
    SiblingSize(t, root, count, lo, hi, d, x, odd, l, r, q, k, if x == l then r else l);
    SiblingLinks(t, root, d, l, r, q, k);
    MergeApart(t, root, d, l, r, q, k);
  }

  /** The same, away from the leaves, as far as removing entries further up is concerned. */
  lemma {:induction false} InnerMerge(t: Shape, root: Option<NodeId>, count: int, lo: nat, hi: nat, d: nat, x: NodeId,
      odd: set<NodeId>,
      l: NodeId, r: NodeId, q: NodeId, k: nat, m: Node, toLeft: bool, ns': Nodes) returns (t': Shape)
    requires Thin(t, root, count, lo, hi, d, x, odd) && Adjacent(t, root, d, l, r, q, k) && d > 0
    requires x == if toLeft then r else l
    requires Merged(t.ns, ns', l, r, m, q, k, toLeft) && SameKinds(t.ns, ns') && lo <= Size(m) <= hi
    ensures t'.ns == ns' && Thin(t', root, count, lo, hi, d + 1, q, odd)
    ensures Contents(t'.ns, t'.levels) == Contents(t.ns, t.levels)
    ensures |t'.levels| == |t.levels| && t'.levels[..d] == t.levels[..d] && LeavesKept(t, t') && !OnLevel(t', d, x)
    ensures t'.height == t.height
  {
    t' := MergeEffect(t, root, count, lo, hi, d, x, odd, l, r, q, k, m, toLeft, ns', odd);
    HighUp(t, t', root, d, l, r, q);
  }

  lemma {:induction false} LowerLevels(a: Levels, b: Levels, c: Levels, d: nat)
    requires d < |a| && d < |b| && d <= |c| && a[..d + 1] == b[..d + 1] && b[..d] == c[..d]
    ensures a[..d] == c[..d] && a[d] == b[d]
  {
    assert a[..d] == a[..d + 1][..d] && b[..d] == b[..d + 1][..d];
    assert a[..d + 1][d] == b[..d + 1][d];
  }
}
