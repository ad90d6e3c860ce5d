/** Steps that rearrange two neighbouring siblings l and r under their parent q:
    moving entries from one to the other, and merging them. k is the position of l
    among the children of q, so the separator between them is the k-th. */
module Siblings {
  import opened Lists
  import opened SortOrder
  import opened Layout
  import opened Regroup
  import opened Steps

  /** Separators vs lie between the children cs. */
  ghost predicate Ladder(first: Firsts, vs: seq<SortKey>, cs: seq<NodeId>)
  {
    && |cs| == |vs| + 1
    && (forall i {:trigger cs[i]} :: 0 <= i < |cs| ==> cs[i] in first)
    && forall i {:trigger vs[i]} :: 0 <= i < |vs| ==> vs[i] == first[cs[i + 1]]
  }

  lemma {:induction false} LadderCut(first: Firsts, vs: seq<SortKey>, cs: seq<NodeId>, s: SortKey, ws: seq<SortKey>,
      ds: seq<NodeId>)
    requires Ladder(first, vs + [s] + ws, cs + ds) && |cs| == |vs| + 1
    ensures Ladder(first, vs, cs) && Ladder(first, ws, ds) && s == first[ds[0]]
  {
    var v, c := vs + [s] + ws, cs + ds;
    assert v[|vs|] == s && c[|cs|] == ds[0];
    forall i | 0 <= i < |cs| ensures cs[i] == c[i] && cs[i] in first {}
    forall i | 0 <= i < |ds| ensures ds[i] == c[|cs| + i] && ds[i] in first {}
    forall i | 0 <= i < |vs| ensures vs[i] == first[cs[i + 1]] { assert v[i] == vs[i] && c[i + 1] == cs[i + 1]; }
    forall i | 0 <= i < |ws| ensures ws[i] == first[ds[i + 1]] {
      assert v[|vs| + 1 + i] == ws[i] && c[|cs| + i + 1] == ds[i + 1];
    }
  }

  lemma {:induction false} LadderFrame(first: Firsts, first': Firsts, vs: seq<SortKey>, cs: seq<NodeId>)
    requires Ladder(first, vs, cs)
    requires forall c {:trigger c in cs} :: c in cs ==> SameFirst(first, first', c)
    ensures Ladder(first', vs, cs)
  {
    forall i | 0 <= i < |cs| ensures SameFirst(first, first', cs[i]) { assert cs[i] in cs; }
  }

  // ----- moving entries between siblings

  /** l and r hold together what they held before, around a new separator. */
  ghost predicate Shares(l: Node, r: Node, sep: SortKey, l': Node, r': Node, sep': SortKey)
  {
    if l.Leaf? then
      r.Leaf? && l'.Leaf? && r'.Leaf? && l.ids + r.ids == l'.ids + r'.ids
    else
      && r.Inner? && l'.Inner? && r'.Inner?
      && l.vals + [sep] + r.vals == l'.vals + [sep'] + r'.vals
      && l.children + r.children == l'.children + r'.children
      && |l'.children| == |l'.vals| + 1 && |r'.children| == |r'.vals| + 1
  }

  ghost predicate BorrowStore(ns: Nodes, ns': Nodes, l: NodeId, r: NodeId, q: NodeId, k: nat, sep: SortKey)
  {
    && l in ns && r in ns && q in ns && ns[q].Inner? && l != r && l != q && r != q
    && l in ns' && r in ns' && q in ns'
    && (forall u {:trigger SameBody(ns, ns', u)} :: u in ns && u != l && u != r && u != q ==> SameBody(ns, ns', u))
    && (forall u {:trigger u in ns'} :: u in ns ==>
          && u in ns' && SameLinks(ns, ns', u)
          && ns'[u].parent == if u in Kids(ns', l) then Some(l) else if u in Kids(ns', r) then Some(r)
            else ns[u].parent)
    && k < |ns[q].vals| && ns'[q].Inner? && ns'[q].children == ns[q].children && ns'[q].vals == ns[q].vals[k := sep]
    && Shares(ns[l], ns[r], ns[q].vals[k], ns'[l], ns'[r], sep)
  }

  lemma {:induction false} SharesRows(ns: Nodes, ns': Nodes, l: NodeId, r: NodeId, s: SortKey, s': SortKey)
    requires l in ns && r in ns && l in ns' && r in ns' && Shares(ns[l], ns[r], s, ns'[l], ns'[r], s')
    ensures Gather(KidRow(ns'), [l, r]) == Gather(KidRow(ns), [l, r])
    ensures Kids(ns, l) + Kids(ns, r) == Kids(ns', l) + Kids(ns', r)
    ensures Gather(IdRow(ns'), [l, r]) == Gather(IdRow(ns), [l, r])
  {
    GatherTwo(KidRow(ns), l, r);
    GatherTwo(IdRow(ns), l, r);
    GatherTwo(KidRow(ns'), l, r);
    GatherTwo(IdRow(ns'), l, r);
  }

  lemma {:induction false} SharesExact(ns: Nodes, ns': Nodes, first: Firsts, first': Firsts, l: NodeId, r: NodeId,
      sep: SortKey, sep': SortKey)
    requires Exact(ns, first, l) && Exact(ns, first, r) && l in ns' && r in ns' && l != r
    requires Shares(ns[l], ns[r], sep, ns'[l], ns'[r], sep') && sep == first[r]
    requires first' == first[r := sep']
    requires r !in Kids(ns, l) && r !in Kids(ns, r)
    ensures Exact(ns', first', l) && Exact(ns', first', r)
  {
    var a, b, a', b' := ns[l], ns[r], ns'[l], ns'[r];
    assert Kids(ns, l) + Kids(ns, r) == a'.children + b'.children;
    LadderFrame(first, first', a.vals + [sep] + b.vals, a.children + b.children);
    LadderCut(first', a'.vals, a'.children, sep', b'.vals, b'.children);
    assert a'.children[0] == (a'.children + b'.children)[0] == a.children[0];
  }

  /** l and r are the k-th and next child of the parent of the site. */
  ghost predicate PairAt(t: Shape, s: Site, l: NodeId, r: NodeId, k: nat)
  {
    && SiteOpen(t, s) && l in t.levels[s.d] && r in t.levels[s.d] && s.q in t.levels[s.d + 1]
    && s.was == [l, r] && l != r
    && k + 1 < |Kids(t.ns, s.q)| && Kids(t.ns, s.q)[k] == l && Kids(t.ns, s.q)[k + 1] == r
    && s.left == Kids(t.ns, s.q)[..k] && s.right == Kids(t.ns, s.q)[k + 2..]
    && l in t.ns && t.ns[l].parent == Some(s.q) && r in t.ns && t.ns[r].parent == Some(s.q)
  }

  lemma {:induction false} PairOpens(t: Shape, root: Option<NodeId>, d: nat, l: NodeId, r: NodeId, q: NodeId, k: nat,
      now: seq<NodeId>) returns (s: Site)
    requires Tree(t, root) && d + 1 < |t.levels| && l in t.levels[d]
    requires l in t.ns && t.ns[l].parent == Some(q) && k == IndexOf(l, Kids(t.ns, q)) && k + 1 < |Kids(t.ns, q)|
    requires Kids(t.ns, q)[k + 1] == r
    ensures s.d == d && s.q == q && s.now == now && PairAt(t, s, l, r, k)
  {
    hide Tree, SiteOpen;
    var q', j, k' := FindParent(t, root, d, l);
    var ks := Kids(t.ns, q);
    PairMembers(t, root, d, q, ks[k + 1]);
    assert ks[k..k + 2] == [l, r] && Differ(ks, k, ks, k + 1);
    SiteOpens(t, root, d, j, k, 2, now);
    s := SiteAt(t, d, j, k, 2, now);
  }

  lemma {:induction false} PairMembers(t: Shape, root: Option<NodeId>, d: nat, q: NodeId, c: NodeId)
    requires Tree(t, root) && d + 1 < |t.levels| && q in t.levels[d + 1] && c in Kids(t.ns, q)
    ensures c in t.levels[d] && c in t.ns && t.ns[c].parent == Some(q) && NoDup(Kids(t.ns, q))
  {
    KidsOf(t, root, d + 1, q);
    KidsBelow(t, root, d + 1, q);
  }

  ghost function BorrowShape(t: Shape, ns': Nodes, s: Site, r: NodeId, sep: SortKey): Shape
    requires s.d < |t.levels|
  {
    Shape(ns', t.levels[s.d := s.a + s.now + s.b], t.first[r := sep], t.height)
  }

  lemma {:induction false} BorrowLocal(t: Shape, t': Shape, root: Option<NodeId>, s: Site, l: NodeId, r: NodeId,
      k: nat, sep: SortKey)
    requires Tree(t, root) && PairAt(t, s, l, r, k) && BorrowStore(t.ns, t'.ns, l, r, s.q, k, sep)
    requires t' == BorrowShape(t, t'.ns, s, r, sep)
    ensures Local(t, t', s)
  {
    KidsOf(t, root, s.d, l);
    KidsOf(t, root, s.d, r);
    SharesRows(t.ns, t'.ns, l, r, t.ns[s.q].vals[k], sep);
    forall u | u in t.ns && !InSite(s, u) && (t.ns[u].parent.Some? ==> !InSite(s, t.ns[u].parent.value))
        ensures SameParent(t.ns, t'.ns, u) {
      assert u in t'.ns;
      assert u in Kids(t'.ns, l) || u in Kids(t'.ns, r) ==> u in Kids(t.ns, l) + Kids(t.ns, r);
    }
    forall u | u in t.ns ensures SameLinks(t.ns, t'.ns, u) { assert u in t'.ns; }
  }

  lemma {:induction false} BorrowSound(t: Shape, t': Shape, root: Option<NodeId>, s: Site, l: NodeId, r: NodeId,
      k: nat, sep: SortKey)
    requires Tree(t, root) && PairAt(t, s, l, r, k) && s.d > 0
    requires BorrowStore(t.ns, t'.ns, l, r, s.q, k, sep) && t' == BorrowShape(t, t'.ns, s, r, sep)
    ensures Sound(t'.ns, t'.first, [l, r])
  {
    KidsOf(t, root, s.d, l);
    KidsOf(t, root, s.d, r);
    KidsOf(t, root, s.d + 1, s.q);
    KidsBelow(t, root, s.d, l);
    KidsBelow(t, root, s.d, r);
    SharesExact(t.ns, t'.ns, t.first, t'.first, l, r, t.ns[s.q].vals[k], sep);
    PairAdopts(t, t', s, l, r, k, sep);
  }

  lemma {:induction false} PairAdopts(t: Shape, t': Shape, s: Site, l: NodeId, r: NodeId, k: nat, sep: SortKey)
    requires Adopted(t.ns, l) && Adopted(t.ns, r) && NoDup(Kids(t.ns, l)) && NoDup(Kids(t.ns, r))
    requires BorrowStore(t.ns, t'.ns, l, r, s.q, k, sep)
    ensures Adopted(t'.ns, l) && Adopted(t'.ns, r)
  {
    SharesRows(t.ns, t'.ns, l, r, t.ns[s.q].vals[k], sep);
    var both := Kids(t.ns, l) + Kids(t.ns, r);
    NoDupConcat(Kids(t.ns, l), Kids(t.ns, r));
    assert Apart(Kids(t.ns, l), Kids(t.ns, r)) by {
      forall i, j | 0 <= i < |Kids(t.ns, l)| && 0 <= j < |Kids(t.ns, r)| ensures Kids(t.ns, l)[i] != Kids(t.ns, r)[j] {
        assert Kids(t.ns, l)[i] in Kids(t.ns, l) && Kids(t.ns, r)[j] in Kids(t.ns, r);
      }
    }
    assert both == Kids(t'.ns, l) + Kids(t'.ns, r);
    NoDupConcat(Kids(t'.ns, l), Kids(t'.ns, r));
    forall c | c in Kids(t'.ns, l) ensures c in t'.ns && t'.ns[c].parent == Some(l) { assert c in both && c in t'.ns; }
    forall c | c in Kids(t'.ns, r) ensures c in t'.ns && t'.ns[c].parent == Some(r) {
      assert c in both && c in t'.ns && c !in Kids(t'.ns, l);
    }
  }

  lemma {:induction false} BorrowGroup(t: Shape, t': Shape, root: Option<NodeId>, s: Site, l: NodeId, r: NodeId,
      k: nat, sep: SortKey)
    requires Tree(t, root) && PairAt(t, s, l, r, k) && s.now == [l, r]
    requires BorrowStore(t.ns, t'.ns, l, r, s.q, k, sep) && t' == BorrowShape(t, t'.ns, s, r, sep)
    ensures Group(t.ns, t', s)
  {
    KidsOf(t, root, s.d, l);
    KidsOf(t, root, s.d, r);
    SharesRows(t.ns, t'.ns, l, r, t.ns[s.q].vals[k], sep);
    NotTheirKids(t, root, s, l, r, k);
    assert l in Kids(t'.ns, l) + Kids(t'.ns, r) ==> l in Kids(t.ns, l) + Kids(t.ns, r);
    assert r in Kids(t'.ns, l) + Kids(t'.ns, r) ==> r in Kids(t.ns, l) + Kids(t.ns, r);
    assert t'.ns[l].parent == Some(s.q) && t'.ns[r].parent == Some(s.q);
    if s.d > 0 { BorrowSound(t, t', root, s, l, r, k, sep); }
  }

  lemma {:induction false} NotTheirKids(t: Shape, root: Option<NodeId>, s: Site, l: NodeId, r: NodeId, k: nat)
    requires Tree(t, root) && PairAt(t, s, l, r, k)
    ensures l !in Kids(t.ns, l) && l !in Kids(t.ns, r) && r !in Kids(t.ns, l) && r !in Kids(t.ns, r)
  {
    KidsOf(t, root, s.d, l);
    KidsOf(t, root, s.d, r);
    KidsBelow(t, root, s.d, l);
    KidsBelow(t, root, s.d, r);
  }

  lemma {:induction false} Reseparated(ns: Nodes, ns': Nodes, first: Firsts, first': Firsts, q: NodeId, k: nat,
      sep: SortKey)
    requires Exact(ns, first, q) && NoDup(ns[q].children) && k < |ns[q].vals|
    requires first' == first[ns[q].children[k + 1] := sep] && ns[q].children[k + 1] != q
    requires q in ns' && ns'[q].Inner? && ns'[q].children == ns[q].children && ns'[q].vals == ns[q].vals[k := sep]
    ensures Exact(ns', first', q)
  {
    var cs := ns[q].children;
    forall i | 0 <= i < |ns'[q].vals| ensures ns'[q].vals[i] == first'[cs[i + 1]] {
      if i < k { assert Differ(cs, i + 1, cs, k + 1); } else if k < i { assert Differ(cs, k + 1, cs, i + 1); }
    }
    assert Differ(cs, 0, cs, k + 1);
  }

  lemma {:induction false} BorrowOwner(t: Shape, t': Shape, root: Option<NodeId>, s: Site, l: NodeId, r: NodeId,
      k: nat, sep: SortKey)
    requires Tree(t, root) && PairAt(t, s, l, r, k) && s.now == [l, r]
    requires BorrowStore(t.ns, t'.ns, l, r, s.q, k, sep) && t'.first == t.first[r := sep]
    ensures Kids(t'.ns, s.q) == s.left + s.now + s.right && Exact(t'.ns, t'.first, s.q)
  {
    KidsOf(t, root, s.d + 1, s.q);
    KidsBelow(t, root, s.d + 1, s.q);
    assert Kids(t'.ns, s.q) == Kids(t.ns, s.q);
    Reseparated(t.ns, t'.ns, t.first, t'.first, s.q, k, sep);
  }

  /** Moving entries between siblings keeps the tree and its documents. */
  lemma {:induction false} BorrowStep(t: Shape, root: Option<NodeId>, d: nat, l: NodeId, r: NodeId, q: NodeId, k: nat,
      sep: SortKey, ns': Nodes)
      returns (t': Shape)
    requires Tree(t, root) && d + 1 < |t.levels| && l in t.levels[d]
    requires l in t.ns && t.ns[l].parent == Some(q) && k == IndexOf(l, Kids(t.ns, q)) && k + 1 < |Kids(t.ns, q)|
    requires Kids(t.ns, q)[k + 1] == r
    requires BorrowStore(t.ns, ns', l, r, q, k, sep)
    ensures t' == Shape(ns', t.levels, t.first[r := sep], t.height)
    ensures Tree(t', root) && Contents(ns', t'.levels) == Contents(t.ns, t.levels)
    ensures Elsewhere(t, t', {l, r, q})
  {
    var s := PairOpens(t, root, d, l, r, q, k, [l, r]);
    t' := BorrowShape(t, ns', s, r, sep);
    assert t'.levels == t.levels;
    BorrowCompletes(t, t', root, s, l, r, k, sep);
  }

  lemma {:induction false} BorrowCompletes(t: Shape, t': Shape, root: Option<NodeId>, s: Site, l: NodeId, r: NodeId,
      k: nat, sep: SortKey)
    requires Tree(t, root) && PairAt(t, s, l, r, k) && s.now == [l, r]
    requires BorrowStore(t.ns, t'.ns, l, r, s.q, k, sep) && t' == BorrowShape(t, t'.ns, s, r, sep)
    ensures Tree(t', root) && Contents(t'.ns, t'.levels) == Contents(t.ns, t.levels)
    ensures Elsewhere(t, t', {l, r, s.q})
  {
    BorrowRewrites(t, t', root, s, l, r, k, sep);
    RewriteKeepsTree(t, t', root, s);
    RewriteElsewhere(t, t', root, s, {l, r, s.q});
  }

  lemma {:induction false} BorrowFrame(t: Shape, t': Shape, root: Option<NodeId>, s: Site, l: NodeId, r: NodeId,
      k: nat, sep: SortKey)
    requires Tree(t, root) && PairAt(t, s, l, r, k) && s.now == [l, r]
    requires BorrowStore(t.ns, t'.ns, l, r, s.q, k, sep) && t' == BorrowShape(t, t'.ns, s, r, sep)
    ensures Kids(t'.ns, s.q) == s.left + s.now + s.right && Exact(t'.ns, t'.first, s.q)
    ensures Local(t, t', s) && Chained(t'.ns, s.a + s.now + s.b)
  {
    BorrowOwner(t, t', root, s, l, r, k, sep);
    BorrowLocal(t, t', root, s, l, r, k, sep);
    BorrowChained(t.ns, t'.ns, t.levels[s.d], l, r, s.q, k, sep);
  }

  lemma {:induction false} BorrowRewrites(t: Shape, t': Shape, root: Option<NodeId>, s: Site, l: NodeId, r: NodeId,
      k: nat, sep: SortKey)
    requires Tree(t, root) && PairAt(t, s, l, r, k) && s.now == [l, r]
    requires BorrowStore(t.ns, t'.ns, l, r, s.q, k, sep) && t' == BorrowShape(t, t'.ns, s, r, sep)
    ensures Rewrites(t, t', s)
  {
    BorrowFrame(t, t', root, s, l, r, k, sep);
    BorrowGroup(t, t', root, s, l, r, k, sep);
  }

  lemma {:induction false} BorrowChained(ns: Nodes, ns': Nodes, xs: seq<NodeId>, l: NodeId, r: NodeId, q: NodeId,
      k: nat, sep: SortKey)
    requires Chained(ns, xs) && BorrowStore(ns, ns', l, r, q, k, sep)
    ensures Chained(ns', xs)
  {
    forall i | 0 <= i < |xs| ensures SameLinks(ns, ns', xs[i]) {
      var u := xs[i];
      assert LinkedAt(ns, xs, i);
      assert u in ns && u in ns';
    }
    ChainedFrame(ns, ns', xs);
  }

  // ----- merging siblings

  /** The survivor m holds everything l and r held. */
  ghost predicate Pooled(l: Node, r: Node, sep: SortKey, m: Node)
  {
    if l.Leaf? then
      r.Leaf? && m.Leaf? && m.ids == l.ids + r.ids
    else
      r.Inner? && m.Inner? && m.vals == l.vals + [sep] + r.vals && m.children == l.children + r.children
  }

  ghost predicate MergeLinks(ns: Nodes, ns': Nodes, l: NodeId, r: NodeId, w: NodeId)
  {
    && l in ns && r in ns && w in ns'
    && (forall u {:trigger u in ns'} :: u in ns && u != l && u != r ==>
          && u in ns'
          && ns'[u].prev == (if ns[r].next == Some(u) then Some(w) else ns[u].prev)
          && ns'[u].next == (if ns[l].prev == Some(u) then Some(w) else ns[u].next))
    && ns'[w].prev == ns[l].prev && ns'[w].next == ns[r].next
  }

  /** l and r are merged into w, one of the two; the other leaves the tree. */
  ghost predicate MergeStore(ns: Nodes, ns': Nodes, l: NodeId, r: NodeId, w: NodeId, q: NodeId, k: nat)
  {
    && l in ns && r in ns && q in ns && ns[q].Inner? && l != r && l != q && r != q && (w == l || w == r)
    && w in ns' && q in ns'
    && (forall u {:trigger SameBody(ns, ns', u)} :: u in ns && u != l && u != r && u != q ==> SameBody(ns, ns', u))
    && (forall u {:trigger u in ns'} :: u in ns && (u == w || (u != l && u != r)) ==>
          u in ns' && ns'[u].parent == if u in Kids(ns', w) then Some(w) else ns[u].parent)
    && MergeLinks(ns, ns', l, r, w)
    && k < |ns[q].vals| && |ns[q].children| == |ns[q].vals| + 1 && ns'[q].Inner?
    && ns'[q].vals == ns[q].vals[..k] + ns[q].vals[k + 1..]
    && ns'[q].children == ns[q].children[..k] + [w] + ns[q].children[k + 2..]
    && Pooled(ns[l], ns[r], ns[q].vals[k], ns'[w])
  }

  ghost function MergeShape(t: Shape, ns': Nodes, s: Site, l: NodeId, w: NodeId): Shape
    requires s.d < |t.levels| && l in t.first
  {
    Shape(ns', t.levels[s.d := s.a + s.now + s.b], t.first[w := t.first[l]], t.height)
  }

  lemma {:induction false} PooledRows(ns: Nodes, ns': Nodes, l: NodeId, r: NodeId, w: NodeId, sep: SortKey)
    requires l in ns && r in ns && w in ns' && Pooled(ns[l], ns[r], sep, ns'[w])
    ensures Gather(KidRow(ns'), [w]) == Gather(KidRow(ns), [l, r])
    ensures Gather(IdRow(ns'), [w]) == Gather(IdRow(ns), [l, r])
    ensures Kids(ns', w) == Kids(ns, l) + Kids(ns, r)
  {
    GatherTwo(KidRow(ns), l, r);
    GatherTwo(IdRow(ns), l, r);
    GatherOne(KidRow(ns'), w);
    GatherOne(IdRow(ns'), w);
  }

  lemma {:induction false} PooledExact(ns: Nodes, ns': Nodes, first: Firsts, first': Firsts, l: NodeId, r: NodeId,
      w: NodeId, sep: SortKey)
    requires Exact(ns, first, l) && Exact(ns, first, r) && w in ns' && Pooled(ns[l], ns[r], sep, ns'[w])
    requires sep == first[r]
    requires first' == first[w := first[l]] && w !in Kids(ns, l) && w !in Kids(ns, r)
    ensures Exact(ns', first', w)
  {
    var a, b, m := ns[l], ns[r], ns'[w];
    assert Kids(ns, l) + Kids(ns, r) == m.children;
    LadderFrame(first, first', m.vals, m.children);
    assert m.children[0] == a.children[0] && a.children[0] in Kids(ns, l);
  }

  lemma {:induction false} MergeLocal(t: Shape, t': Shape, root: Option<NodeId>, s: Site, l: NodeId, r: NodeId,
      w: NodeId, k: nat)
    requires Tree(t, root) && PairAt(t, s, l, r, k) && l in t.first
    requires MergeStore(t.ns, t'.ns, l, r, w, s.q, k) && t' == MergeShape(t, t'.ns, s, l, w)
    ensures Local(t, t', s)
  {
    KidsOf(t, root, s.d, l);
    KidsOf(t, root, s.d, r);
    PooledRows(t.ns, t'.ns, l, r, w, t.ns[s.q].vals[k]);
    forall u | u in t.ns && !InSite(s, u) && (t.ns[u].parent.Some? ==> !InSite(s, t.ns[u].parent.value))
        ensures SameParent(t.ns, t'.ns, u) {
      assert u in t'.ns;
      assert u in Kids(t'.ns, w) ==> u in Kids(t.ns, l) + Kids(t.ns, r);
    }
    forall u | u in t.ns && u in t.height && t.height[u] != s.d ensures SameLinks(t.ns, t'.ns, u) {
      assert u in t'.ns;
      if t.ns[r].next == Some(u) { NextIsLevel(t, root, s.d, r, u); }
      if t.ns[l].prev == Some(u) { NextIsLevel(t, root, s.d, l, u); }
    }
  }

  lemma {:induction false} MergeSound(t: Shape, t': Shape, root: Option<NodeId>, s: Site, l: NodeId, r: NodeId,
      w: NodeId, k: nat)
    requires Tree(t, root) && PairAt(t, s, l, r, k) && l in t.first && s.d > 0
    requires MergeStore(t.ns, t'.ns, l, r, w, s.q, k) && t' == MergeShape(t, t'.ns, s, l, w)
    ensures Exact(t'.ns, t'.first, w) && Adopted(t'.ns, w)
  {
    KidsOf(t, root, s.d, l);
    KidsOf(t, root, s.d, r);
    KidsOf(t, root, s.d + 1, s.q);
    NotTheirKids(t, root, s, l, r, k);
    PooledExact(t.ns, t'.ns, t.first, t'.first, l, r, w, t.ns[s.q].vals[k]);
    PooledRows(t.ns, t'.ns, l, r, w, t.ns[s.q].vals[k]);
    forall c | c in Kids(t'.ns, w) ensures c in t'.ns && t'.ns[c].parent == Some(w) {
      assert c in Kids(t.ns, l) || c in Kids(t.ns, r);
      assert c in t.ns && c != l && c != r && c in t'.ns;
    }
  }

  lemma {:induction false} MergeGroup(t: Shape, t': Shape, root: Option<NodeId>, s: Site, l: NodeId, r: NodeId,
      w: NodeId, k: nat)
    requires Tree(t, root) && PairAt(t, s, l, r, k) && s.now == [w] && l in t.first
    requires MergeStore(t.ns, t'.ns, l, r, w, s.q, k) && t' == MergeShape(t, t'.ns, s, l, w)
    ensures Group(t.ns, t', s)
  {
    KidsOf(t, root, s.d, l);
    KidsOf(t, root, s.d, r);
    NotTheirKids(t, root, s, l, r, k);
    PooledRows(t.ns, t'.ns, l, r, w, t.ns[s.q].vals[k]);
    assert w in Kids(t'.ns, w) ==> w in Kids(t.ns, l) + Kids(t.ns, r);
    assert w in t'.ns && t'.ns[w].parent == Some(s.q);
    if s.d > 0 { MergeSound(t, t', root, s, l, r, w, k); }
  }

  lemma {:induction false} Unseparated(ns: Nodes, ns': Nodes, first: Firsts, first': Firsts, q: NodeId, k: nat,
      w: NodeId)
    requires Exact(ns, first, q) && NoDup(ns[q].children) && k < |ns[q].vals|
    requires w == ns[q].children[k] || w == ns[q].children[k + 1]
    requires w != q && first' == first[w := first[ns[q].children[k]]]
    requires q in ns' && ns'[q].Inner? && ns'[q].vals == ns[q].vals[..k] + ns[q].vals[k + 1..]
    requires ns'[q].children == ns[q].children[..k] + [w] + ns[q].children[k + 2..]
    ensures Exact(ns', first', q)
  {
    var cs, vs := ns[q].children, ns[q].vals;
    UnseparatedFirsts(first, first', cs, k, w);
    var cs', vs' := ns'[q].children, ns'[q].vals;
    forall i | 0 <= i < |vs'| ensures vs'[i] == first'[cs'[i + 1]] {
      assert vs'[i] == vs[if i < k then i else i + 1];
    }
  }

  lemma {:induction false} UnseparatedFirsts(first: Firsts, first': Firsts, cs: seq<NodeId>, k: nat, w: NodeId)
    requires NoDup(cs) && k + 1 < |cs| && (w == cs[k] || w == cs[k + 1])
    requires forall i {:trigger cs[i]} :: 0 <= i < |cs| ==> cs[i] in first
    requires first' == first[w := first[cs[k]]]
    ensures forall i {:trigger (cs[..k] + [w] + cs[k + 2..])[i]} :: 0 <= i < |cs| - 1 ==>
      var c := (cs[..k] + [w] + cs[k + 2..])[i];
      c in first' && first'[c] == first[if i <= k then cs[i] else cs[i + 1]]
  {
    var cs' := cs[..k] + [w] + cs[k + 2..];
    forall i | 0 <= i < |cs'| ensures cs'[i] in first' && first'[cs'[i]] == first[if i <= k then cs[i] else cs[i + 1]] {
      if i < k {
        assert cs'[i] == cs[i] && Differ(cs, i, cs, k) && Differ(cs, i, cs, k + 1);
      } else if i == k {
        assert cs'[k] == w && first'[w] == first[cs[k]];
      } else {
        assert cs'[i] == cs[i + 1] && Differ(cs, k, cs, i + 1) && Differ(cs, k + 1, cs, i + 1);
      }
    }
  }

  lemma {:induction false} MergeOwner(t: Shape, t': Shape, root: Option<NodeId>, s: Site, l: NodeId, r: NodeId,
      w: NodeId, k: nat)
    requires Tree(t, root) && PairAt(t, s, l, r, k) && s.now == [w] && l in t.first
    requires MergeStore(t.ns, t'.ns, l, r, w, s.q, k) && t'.first == t.first[w := t.first[l]]
    ensures Kids(t'.ns, s.q) == s.left + s.now + s.right && Exact(t'.ns, t'.first, s.q)
  {
    KidsOf(t, root, s.d + 1, s.q);
    KidsBelow(t, root, s.d + 1, s.q);
    Unseparated(t.ns, t'.ns, t.first, t'.first, s.q, k, w);
  }

  lemma {:induction false} MergeChained(ns: Nodes, ns': Nodes, a: seq<NodeId>, l: NodeId, r: NodeId, w: NodeId,
      b: seq<NodeId>)
    requires Chained(ns, a + [l, r] + b) && NoDup(a + [l, r] + b) && MergeLinks(ns, ns', l, r, w)
    ensures Chained(ns', a + [w] + b)
  {
    var was, now := [l, r], [w];
    ChainEnds(ns, a, was, b);
    NoDupParts(a, was, b);
    assert was[0] == l && was[1] == r;
    forall i | 0 <= i < |a|
      ensures a[i] in ns
        && Relinked(ns, ns', a[i], ns[a[i]].prev, if i + 1 < |a| then ns[a[i]].next else Some(now[0])) {
      var u := a[i];
      assert u in a && u != was[0] && u != was[1] && u in ns && u in ns';
      assert b != [] ==> b[0] in b && b[0] != u;
      assert Differ(a, i, a, |a| - 1) || i + 1 == |a|;
    }
    forall i | 0 <= i < |b|
      ensures b[i] in ns && Relinked(ns, ns', b[i], if i > 0 then ns[b[i]].prev else Some(now[0]), ns[b[i]].next) {
      var u := b[i];
      assert u in b && u != was[0] && u != was[1] && u in ns && u in ns';
      assert a != [] ==> a[|a| - 1] in a && a[|a| - 1] != u;
      assert Differ(b, 0, b, i) || i == 0;
    }
    ChainPatch(ns, ns', a, was, now, b);
  }

  lemma {:induction false} MergeFrame(t: Shape, t': Shape, root: Option<NodeId>, s: Site, l: NodeId, r: NodeId,
      w: NodeId, k: nat)
    requires Tree(t, root) && PairAt(t, s, l, r, k) && s.now == [w] && l in t.first
    requires MergeStore(t.ns, t'.ns, l, r, w, s.q, k) && t' == MergeShape(t, t'.ns, s, l, w)
    ensures Kids(t'.ns, s.q) == s.left + s.now + s.right && Exact(t'.ns, t'.first, s.q)
    ensures Local(t, t', s) && Chained(t'.ns, s.a + [w] + s.b)
  {
    MergeOwner(t, t', root, s, l, r, w, k);
    MergeLocal(t, t', root, s, l, r, w, k);
    MergeChained(t.ns, t'.ns, s.a, l, r, w, s.b);
  }

  lemma {:induction false} MergeRewrites(t: Shape, t': Shape, root: Option<NodeId>, s: Site, l: NodeId, r: NodeId,
      w: NodeId, k: nat)
    requires Tree(t, root) && PairAt(t, s, l, r, k) && s.now == [w] && l in t.first
    requires MergeStore(t.ns, t'.ns, l, r, w, s.q, k) && t' == MergeShape(t, t'.ns, s, l, w)
    ensures Rewrites(t, t', s)
  {
    MergeFrame(t, t', root, s, l, r, w, k);
    MergeGroup(t, t', root, s, l, r, w, k);
  }

  /** Merging siblings keeps the tree and its documents. */
  lemma {:induction false} MergeStep(t: Shape, root: Option<NodeId>, d: nat, l: NodeId, r: NodeId, w: NodeId,
      q: NodeId, k: nat, ns': Nodes)
      returns (t': Shape)
    requires Tree(t, root) && d + 1 < |t.levels| && l in t.levels[d]
    requires l in t.ns && t.ns[l].parent == Some(q) && k == IndexOf(l, Kids(t.ns, q)) && k + 1 < |Kids(t.ns, q)|
    requires Kids(t.ns, q)[k + 1] == r
    requires MergeStore(t.ns, ns', l, r, w, q, k)
    ensures l in t.first && t'.ns == ns' && t'.first == t.first[w := t.first[l]] && t'.height == t.height
    ensures |t'.levels| == |t.levels| && forall e: nat :: e < |t.levels| && e != d ==> t'.levels[e] == t.levels[e]
    ensures Tree(t', root) && Contents(ns', t'.levels) == Contents(t.ns, t.levels)
    ensures Elsewhere(t, t', {l, r, q}) && Covers(t, t', {l, r}) && w in t'.levels[d] && q in t'.levels[d + 1]
    ensures (if w == l then r else l) !in t'.levels[d]
  {
    KidsOf(t, root, d, l);
    var s := PairOpens(t, root, d, l, r, q, k, [w]);
    t' := MergeShape(t, ns', s, l, w);
    MergeCompletes(t, t', root, s, l, r, w, k);
  }

  lemma {:induction false} MergeCompletes(t: Shape, t': Shape, root: Option<NodeId>, s: Site, l: NodeId, r: NodeId,
      w: NodeId, k: nat)
    requires Tree(t, root) && PairAt(t, s, l, r, k) && s.now == [w] && l in t.first
    requires MergeStore(t.ns, t'.ns, l, r, w, s.q, k) && t' == MergeShape(t, t'.ns, s, l, w)
    ensures Tree(t', root) && Contents(t'.ns, t'.levels) == Contents(t.ns, t.levels)
    ensures Elsewhere(t, t', {l, r, s.q}) && Covers(t, t', {l, r}) && w in t'.levels[s.d] && s.q in t'.levels[s.d + 1]
    ensures (if w == l then r else l) !in t'.levels[s.d]
  {
    MergeRewrites(t, t', root, s, l, r, w, k);
    RewriteKeepsTree(t, t', root, s);
    RewriteElsewhere(t, t', root, s, {l, r, s.q});
    RewriteCovers(t, t', root, s, {l, r});
    MergedAway(s, l, r, w);
  }

  lemma {:induction false} MergedAway(s: Site, l: NodeId, r: NodeId, w: NodeId)
    requires NoDup(s.a + s.was + s.b) && s.was == [l, r] && l != r && (w == l || w == r)
    ensures w in s.a + [w] + s.b && (if w == l then r else l) !in s.a + [w] + s.b
  {
    NoDupParts(s.a, s.was, s.b);
    assert l in [l, r] && r in [l, r];
    var dead := if w == l then r else l;
    assert dead in s.was && dead !in s.a && dead !in s.b && dead !in [w];
    assert w in [w];
  }
}
