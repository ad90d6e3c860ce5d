/** The structural steps of the tree, each shown to be one rewrite: splitting a
    node, moving an entry between siblings, merging siblings, and adding or
    dropping the root level. */
module Steps {
  import opened Lists
  import opened SortOrder
  import opened Layout
  import opened Regroup

  /** A node below the root is listed once by the parent it names. */
  lemma {:induction false} FindParent(t: Shape, root: Option<NodeId>, d: nat, u: NodeId)
      returns (q: NodeId, j: nat, k: nat)
    requires Tree(t, root) && d + 1 < |t.levels| && u in t.levels[d]
    ensures u in t.ns && t.ns[u].parent == Some(q)
    ensures j < |t.levels[d + 1]| && t.levels[d + 1][j] == q && q in t.ns && t.ns[q].Inner?
    ensures k < |Kids(t.ns, q)| && Kids(t.ns, q)[k] == u && IndexOf(u, Kids(t.ns, q)) == k
    ensures NoDup(Kids(t.ns, q))
  {
    assert JoinedAt(t, d) && LevelAt(t, d);
    q, j, k := FindOwner(t, d, u);
  }

  lemma {:induction false} FindOwner(t: Shape, d: nat, u: NodeId) returns (q: NodeId, j: nat, k: nat)
    requires JoinedAt(t, d) && LevelAt(t, d) && d + 1 < |t.levels| && u in t.levels[d]
    ensures u in t.ns && t.ns[u].parent == Some(q)
    ensures j < |t.levels[d + 1]| && t.levels[d + 1][j] == q && q in t.ns && t.ns[q].Inner?
    ensures k < |Kids(t.ns, q)| && Kids(t.ns, q)[k] == u && IndexOf(u, Kids(t.ns, q)) == k
    ensures NoDup(Kids(t.ns, q)) && Exact(t.ns, t.first, q) && Adopted(t.ns, q)
  {
    var up, row := t.levels[d + 1], KidRow(t.ns);
    var i :| 0 <= i < |t.levels[d]| && t.levels[d][i] == u;
    j, k := GatherLocate(row, up, i);
    q := up[j];
    assert Exact(t.ns, t.first, q) && Adopted(t.ns, q);
    assert u in Kids(t.ns, q);
    GatherAround(row, up, j);
    NoDupParts(Gather(row, up[..j]), Kids(t.ns, q), Gather(row, up[j + 1..]));
    OnlyAt(Kids(t.ns, q), IndexOf(u, Kids(t.ns, q)), k);
  }

  /** The root is the only node of the top level, and has no parent. */
  lemma {:induction false} TopIsRoot(t: Shape, root: Option<NodeId>, d: nat, u: NodeId)
    requires Tree(t, root) && d < |t.levels| && u in t.levels[d]
    ensures u in t.ns
    ensures d + 1 == |t.levels| <==> root == Some(u)
    ensures d + 1 == |t.levels| <==> t.ns[u].parent == None
  {
    assert LevelAt(t, d);
    var top := |t.levels| - 1;
    if d == top {
      assert t.levels[top] == [root.value];
    } else {
      var q, j, k := FindParent(t, root, d, u);
    }
  }

  /** prev and next of u in the new store, when the chain around a replaced stretch is relinked. */
  ghost predicate Relinked(ns: Nodes, ns': Nodes, u: NodeId, prev: Option<NodeId>, next: Option<NodeId>)
  {
    u in ns' && ns'[u].prev == prev && ns'[u].next == next
  }

  lemma {:induction false} ChainPatch(ns: Nodes, ns': Nodes, a: seq<NodeId>, was: seq<NodeId>, now: seq<NodeId>,
      b: seq<NodeId>)
    requires Chained(ns, a + was + b) && now != []
    requires forall i {:trigger a[i]} :: 0 <= i < |a| ==>
      && a[i] in ns
      && Relinked(ns, ns', a[i], ns[a[i]].prev, if i + 1 < |a| then ns[a[i]].next else Some(now[0]))
    requires forall i {:trigger b[i]} :: 0 <= i < |b| ==>
      && b[i] in ns
      && Relinked(ns, ns', b[i], if i > 0 then ns[b[i]].prev else Some(now[|now| - 1]), ns[b[i]].next)
    requires forall k {:trigger now[k]} :: 0 <= k < |now| ==>
      Relinked(ns, ns', now[k], if k == 0 then At(a, |a| - 1) else Some(now[k - 1]),
                                if k == |now| - 1 then At(b, 0) else Some(now[k + 1]))
    ensures Chained(ns', a + now + b)
  {
    var l, l' := a + was + b, a + now + b;
    forall i ensures LinkedAt(ns', l', i) {
      if 0 <= i < |a| {
        assert l'[i] == a[i] == l[i] && LinkedAt(ns, l, i);
      } else if |a| <= i < |a| + |now| {
        assert l'[i] == now[i - |a|];
      } else if |a| + |now| <= i < |l'| {
        var k := i - |a| - |now|;
        assert l'[i] == b[k] == l[|a| + |was| + k] && LinkedAt(ns, l, |a| + |was| + k);
      }
    }
  }

  /** Where the neighbours of a stretch sit in the chain. */
  lemma {:induction false} ChainEnds(ns: Nodes, a: seq<NodeId>, was: seq<NodeId>, b: seq<NodeId>)
    requires Chained(ns, a + was + b) && was != []
    ensures was[0] in ns && ns[was[0]].prev == At(a, |a| - 1)
    ensures was[|was| - 1] in ns && ns[was[|was| - 1]].next == At(b, 0)
    ensures forall k {:trigger was[k]} :: 0 < k < |was| ==>
      was[k] in ns && was[k - 1] in ns && ns[was[k]].prev == Some(was[k - 1])
    ensures forall k {:trigger was[k]} :: 0 <= k < |was| - 1 ==> was[k] in ns && ns[was[k]].next == Some(was[k + 1])
    ensures forall i {:trigger a[i]} :: 0 <= i < |a| ==>
      a[i] in ns && ns[a[i]].next == (if i + 1 < |a| then Some(a[i + 1]) else Some(was[0]))
    ensures forall i {:trigger b[i]} :: 0 <= i < |b| ==>
      b[i] in ns && ns[b[i]].prev == (if i > 0 then Some(b[i - 1]) else Some(was[|was| - 1]))
  {
    var l := a + was + b;
    forall k | 0 <= k < |was|
        ensures was[k] == l[|a| + k] && was[k] in ns && ns[was[k]].prev == At(l, |a| + k - 1)
          && ns[was[k]].next == At(l, |a| + k + 1) {
      assert LinkedAt(ns, l, |a| + k);
    }
    forall i | 0 <= i < |a| ensures a[i] == l[i] && a[i] in ns && ns[a[i]].next == At(l, i + 1) {
      assert LinkedAt(ns, l, i);
    }
    forall i | 0 <= i < |b|
        ensures b[i] == l[|a| + |was| + i] && b[i] in ns && ns[b[i]].prev == At(l, |a| + |was| + i - 1) {
      assert LinkedAt(ns, l, |a| + |was| + i);
    }
  }

  /** The site of w siblings from the k-th child of the j-th node of level d + 1 on. */
  ghost function SiteAt(t: Shape, d: nat, j: nat, k: nat, w: nat, now: seq<NodeId>): Site
    requires d + 1 < |t.levels| && j < |t.levels[d + 1]| && k + w <= |Kids(t.ns, t.levels[d + 1][j])|
  {
    var up := t.levels[d + 1];
    var ks := Kids(t.ns, up[j]);
    Site(d, up[j], ks[k..k + w], now, ks[..k], ks[k + w..], up[..j], up[j + 1..],
         Gather(KidRow(t.ns), up[..j]) + ks[..k], ks[k + w..] + Gather(KidRow(t.ns), up[j + 1..]))
  }

  ghost predicate SiteOpen(t: Shape, s: Site)
  {
    && s.d + 1 < |t.levels| && t.levels[s.d + 1] == s.upA + [s.q] + s.upB
    && Kids(t.ns, s.q) == s.left + s.was + s.right
    && t.levels[s.d] == s.a + s.was + s.b && Opened(t.ns, s)
    && Chained(t.ns, t.levels[s.d]) && NoDup(t.levels[s.d])
  }

  lemma {:induction false} SiteOpens(t: Shape, root: Option<NodeId>, d: nat, j: nat, k: nat, w: nat, now: seq<NodeId>)
    requires Tree(t, root)
    requires d + 1 < |t.levels| && j < |t.levels[d + 1]| && k + w <= |Kids(t.ns, t.levels[d + 1][j])|
    ensures SiteOpen(t, SiteAt(t, d, j, k, w, now))
  {
    var s := SiteAt(t, d, j, k, w, now);
    var up, down := t.levels[d + 1], t.levels[d];
    var ks := Kids(t.ns, up[j]);
    assert JoinedAt(t, d) && LevelAt(t, d);
    assert Joined(t.ns, t.first, up, down) && Chained(t.ns, down) && NoDup(down) && Opened(t.ns, s);
    hide Tree, JoinedAt, LevelAt, Joined, Chained, NoDup, Placed, Opened, Kids;
    assert up == s.upA + [s.q] + s.upB;
    assert ks == s.left + s.was + s.right;
    LevelAround(t.ns, t.first, s, down);
  }

  // ----- splitting

  /** The store after x has given its right half to the new node y, with separator
      top, and their parent q has been told. */
  ghost predicate SplitStore(ns: Nodes, ns': Nodes, x: NodeId, y: NodeId, q: NodeId, k: nat, top: SortKey)
  {
    && x in ns && q in ns && ns[q].Inner? && x != q && y !in ns
    && x in ns' && y in ns' && q in ns'
    && (forall u {:trigger SameBody(ns, ns', u)} :: u in ns && u != x && u != q ==> SameBody(ns, ns', u))
    && (forall u {:trigger u in ns'} :: u in ns ==>
          u in ns' && ns'[u].parent == if u in Kids(ns', y) then Some(y) else ns[u].parent)
    && SplitLinks(ns, ns', x, y)
    && ns'[y].parent == Some(q)
    && Halves(ns[x], ns'[x], ns'[y], top)
    && k < |ns[q].children| && |ns[q].children| == |ns[q].vals| + 1 && ns'[q].Inner?
    && ns'[q].vals == ns[q].vals[..k] + [top] + ns[q].vals[k..]
    && ns'[q].children == ns[q].children[..k] + [x, y] + ns[q].children[k + 1..]
  }

  /** y is linked in right after x. */
  ghost predicate SplitLinks(ns: Nodes, ns': Nodes, x: NodeId, y: NodeId)
  {
    && x in ns && x in ns' && y in ns'
    && (forall u {:trigger u in ns'} :: u in ns && u != x ==>
          && u in ns' && ns'[u].next == ns[u].next
          && ns'[u].prev == if ns[x].next == Some(u) then Some(y) else ns[u].prev)
    && ns'[x].prev == ns[x].prev && ns'[x].next == Some(y)
    && ns'[y].prev == Some(x) && ns'[y].next == ns[x].next
  }

  ghost predicate Halves(n: Node, l: Node, r: Node, top: SortKey)
  {
    if n.Leaf? then
      l.Leaf? && r.Leaf? && n.ids == l.ids + r.ids
    else
      && l.Inner? && r.Inner?
      && n.vals == l.vals + [top] + r.vals
      && n.children == l.children + r.children
      && |l.children| == |l.vals| + 1 && |r.children| == |r.vals| + 1
  }

  /** The tree after the split, with top recorded as the smallest key of y. */
  ghost function SplitShape(t: Shape, ns': Nodes, s: Site, y: NodeId, top: SortKey): Shape
    requires s.d < |t.levels|
  {
    Shape(ns', t.levels[s.d := s.a + s.now + s.b], t.first[y := top], t.height[y := s.d])
  }

  lemma {:induction false} NextIsLevel(t: Shape, root: Option<NodeId>, d: nat, x: NodeId, u: NodeId)
    requires Tree(t, root) && d < |t.levels| && x in t.levels[d]
    requires x in t.ns && (t.ns[x].next == Some(u) || t.ns[x].prev == Some(u))
    ensures u in t.levels[d] && InPlace(t.ns, t.first, t.height, d, u)
  {
    assert LevelAt(t, d);
    var i :| 0 <= i < |t.levels[d]| && t.levels[d][i] == x;
    assert LinkedAt(t.ns, t.levels[d], i);
  }

  lemma {:induction false} KidsOf(t: Shape, root: Option<NodeId>, d: nat, x: NodeId)
    requires Tree(t, root) && d < |t.levels| && x in t.levels[d]
    ensures InPlace(t.ns, t.first, t.height, d, x)
    ensures d > 0 ==> Exact(t.ns, t.first, x)
    ensures Adopted(t.ns, x)
  {
    assert LevelAt(t, d);
    if d > 0 { assert JoinedAt(t, d - 1); }
  }

  /** The children of a node are distinct and live one level down. */
  lemma {:induction false} KidsBelow(t: Shape, root: Option<NodeId>, d: nat, x: NodeId)
    requires Tree(t, root) && d < |t.levels| && x in t.levels[d]
    ensures NoDup(Kids(t.ns, x))
    ensures forall c {:trigger c in Kids(t.ns, x)} :: c in Kids(t.ns, x) ==>
      d > 0 && c in t.levels[d - 1] && InPlace(t.ns, t.first, t.height, d - 1, c)
  {
    assert LevelAt(t, d);
    if d > 0 {
      assert LevelAt(t, d - 1) && JoinedAt(t, d - 1);
      var up, row := t.levels[d], KidRow(t.ns);
      var j :| 0 <= j < |up| && up[j] == x;
      GatherAround(row, up, j);
      NoDupParts(Gather(row, up[..j]), Kids(t.ns, x), Gather(row, up[j + 1..]));
      forall c | c in Kids(t.ns, x) ensures c in t.levels[d - 1] { GatherMember(row, up, j, c); }
    }
  }

  lemma {:induction false} SplitLocal(t: Shape, t': Shape, root: Option<NodeId>, s: Site, x: NodeId, y: NodeId, k: nat,
      top: SortKey)
    requires Tree(t, root) && s.d < |t.levels| && x in t.levels[s.d] && y !in t.height
    requires SplitStore(t.ns, t'.ns, x, y, s.q, k, top)
    requires s.was == [x] && s.now == [x, y] && t' == SplitShape(t, t'.ns, s, y, top)
    ensures Local(t, t', s)
  {
    KidsOf(t, root, s.d, x);
    assert Halves(t.ns[x], t'.ns[x], t'.ns[y], top);
    forall u | u in t.ns && !InSite(s, u) && (t.ns[u].parent.Some? ==> !InSite(s, t.ns[u].parent.value))
        ensures SameParent(t.ns, t'.ns, u) {
      assert u in t'.ns;
      assert u in Kids(t'.ns, y) ==> u in Kids(t.ns, x);
    }
    forall u | u in t.ns && u in t.height && t.height[u] != s.d ensures SameLinks(t.ns, t'.ns, u) {
      assert u != x;
      assert u in t'.ns;
      if t.ns[x].next == Some(u) { NextIsLevel(t, root, s.d, x, u); }
    }
  }

  lemma {:induction false} SplitRows(ns: Nodes, ns': Nodes, x: NodeId, y: NodeId, top: SortKey)
    requires x in ns && x in ns' && y in ns' && Halves(ns[x], ns'[x], ns'[y], top)
    ensures Gather(KidRow(ns'), [x, y]) == Gather(KidRow(ns), [x])
    ensures Gather(IdRow(ns'), [x, y]) == Gather(IdRow(ns), [x])
  {
    GatherTwo(KidRow(ns'), x, y);
    GatherTwo(IdRow(ns'), x, y);
    GatherOne(KidRow(ns), x);
    GatherOne(IdRow(ns), x);
  }

  lemma {:induction false} SplitGroup(t: Shape, t': Shape, root: Option<NodeId>, s: Site, x: NodeId, y: NodeId, k: nat,
      top: SortKey)
    requires Tree(t, root) && s.d < |t.levels| && x in t.levels[s.d] && y !in t.height
    requires x in t.ns && t.ns[x].parent == Some(s.q)
    requires SplitStore(t.ns, t'.ns, x, y, s.q, k, top)
    requires s.was == [x] && s.now == [x, y] && t' == SplitShape(t, t'.ns, s, y, top)
    ensures Group(t.ns, t', s)
  {
    hide Tree, SiteOpen, Exact;
    KidsOf(t, root, s.d, x);
    KidsBelow(t, root, s.d, x);
    assert Halves(t.ns[x], t'.ns[x], t'.ns[y], top);
    SplitRows(t.ns, t'.ns, x, y, top);
    assert x in Kids(t'.ns, y) ==> x in Kids(t.ns, x);
    if s.d > 0 { SplitSound(t, t', s, x, y, k, top); }
  }

  lemma {:induction false} HalvesExact(first: Firsts, first': Firsts, ns: Nodes, ns': Nodes, x: NodeId, y: NodeId,
      top: SortKey)
    requires Exact(ns, first, x) && x in ns' && y in ns' && x != y && y !in Kids(ns, x)
    requires Halves(ns[x], ns'[x], ns'[y], top)
    requires first' == first[y := top]
    ensures Exact(ns', first', x) && Exact(ns', first', y)
  {
    var n, l, r := ns[x], ns'[x], ns'[y];
    Index3(l.vals, [top], r.vals);
    Index3(l.children, r.children, []);
    assert l.children + r.children + [] == n.children;
    forall i | 0 <= i < |n.children| ensures n.children[i] in first && n.children[i] != y {
      assert n.children[i] in Kids(ns, x);
    }
    assert n.vals[|l.vals|] == [top][0];
    assert Exact(ns', first', x);
    forall i | 0 <= i < |r.vals| ensures r.vals[i] == first'[r.children[i + 1]] {
      assert r.vals[i] == n.vals[|l.vals| + 1 + i];
      assert r.children[i + 1] == n.children[|l.children| + i + 1];
    }
    assert r.children[0] == n.children[|l.children|];
  }

  lemma {:induction false} SplitSound(t: Shape, t': Shape, s: Site, x: NodeId, y: NodeId, k: nat, top: SortKey)
    requires Exact(t.ns, t.first, x) && Adopted(t.ns, x) && NoDup(Kids(t.ns, x))
    requires SplitStore(t.ns, t'.ns, x, y, s.q, k, top)
    requires t'.first == t.first[y := top]
    requires forall c :: c in Kids(t.ns, x) ==> c != x && c != y
    ensures Sound(t'.ns, t'.first, [x, y])
  {
    assert Halves(t.ns[x], t'.ns[x], t'.ns[y], top);
    HalvesExact(t.first, t'.first, t.ns, t'.ns, x, y, top);
    NoDupConcat(Kids(t'.ns, x), Kids(t'.ns, y));
    assert Kids(t.ns, x) == Kids(t'.ns, x) + Kids(t'.ns, y);
    forall c | c in Kids(t'.ns, y) ensures c in t'.ns && t'.ns[c].parent == Some(y) {
      assert c in Kids(t.ns, x);
    }
    forall c | c in Kids(t'.ns, x) ensures c in t'.ns && t'.ns[c].parent == Some(x) {
      assert c in Kids(t.ns, x) && c !in Kids(t'.ns, y);
      assert c in t'.ns;
    }
  }

  lemma {:induction false} SplitOwner(t: Shape, t': Shape, x: NodeId, y: NodeId, q: NodeId, k: nat, top: SortKey)
    requires Exact(t.ns, t.first, q) && SplitStore(t.ns, t'.ns, x, y, q, k, top)
    requires Kids(t.ns, q)[k] == x && y !in Kids(t.ns, q) && q != y
    requires t'.first == t.first[y := top]
    ensures Exact(t'.ns, t'.first, q)
    ensures Kids(t'.ns, q) == Kids(t.ns, q)[..k] + [x, y] + Kids(t.ns, q)[k + 1..]
  {
    var m, n := t.ns[q], t'.ns[q];
    forall i | 0 <= i < |m.children| ensures m.children[i] in t.first && m.children[i] != y {
      assert m.children[i] in Kids(t.ns, q);
    }
    forall i | 0 <= i < |n.children|
      ensures n.children[i] == if i <= k then m.children[i] else if i == k + 1 then y else m.children[i - 1] {}
    forall i | 0 <= i < |n.vals|
      ensures n.vals[i] == if i < k then m.vals[i] else if i == k then top else m.vals[i - 1] {}
  }

  lemma {:induction false} SplitChained(ns: Nodes, ns': Nodes, a: seq<NodeId>, x: NodeId, y: NodeId, b: seq<NodeId>)
    requires Chained(ns, a + [x] + b) && NoDup(a + [x] + b) && SplitLinks(ns, ns', x, y)
    ensures Chained(ns', a + [x, y] + b)
  {
    ChainEnds(ns, a, [x], b);
    NoDupParts(a, [x], b);
    var now := [x, y];
    assert [x][0] == x;
    forall i | 0 <= i < |a|
      ensures a[i] in ns
        && Relinked(ns, ns', a[i], ns[a[i]].prev, if i + 1 < |a| then ns[a[i]].next else Some(now[0])) {
      var u := a[i];
      assert u in a && u != x && u in ns && u in ns';
      assert b != [] ==> b[0] in b && b[0] != u;
    }
    forall i | 0 <= i < |b|
      ensures b[i] in ns && Relinked(ns, ns', b[i], if i > 0 then ns[b[i]].prev else Some(now[1]), ns[b[i]].next) {
      var u := b[i];
      assert u in b && u != x && u in ns && u in ns';
      assert Differ(b, 0, b, i) || i == 0;
    }
    ChainPatch(ns, ns', a, [x], now, b);
  }

  /** Which nodes the new tree has on each level, and that all but `touched` keep their contents. */
  ghost predicate Elsewhere(t: Shape, t': Shape, touched: set<NodeId>)
  {
    && |t'.levels| == |t.levels|
    && forall e: nat, u {:trigger u in t'.levels[e]} :: e < |t'.levels| && u in t'.levels[e] && u !in touched ==>
         u in t.levels[e] && SameBody(t.ns, t'.ns, u) && SameFirst(t.first, t'.first, u)
  }

  /** Every node but those in `gone` stays on its level. */
  ghost predicate Covers(t: Shape, t': Shape, gone: set<NodeId>)
  {
    forall e: nat, u {:trigger u in t.levels[e]} :: e < |t.levels| && u in t.levels[e] && u !in gone ==>
      e < |t'.levels| && u in t'.levels[e]
  }

  lemma {:induction false} RewriteCovers(t: Shape, t': Shape, root: Option<NodeId>, s: Site, gone: set<NodeId>)
    requires Tree(t, root) && Rewrites(t, t', s)
    requires forall u {:trigger u in gone} :: u in s.was && u !in s.now ==> u in gone
    ensures Covers(t, t', gone)
  {
    SiteFacts(t, t', root, s);
    forall e: nat, u | e < |t.levels| && u in t.levels[e] && u !in gone ensures u in t'.levels[e] {
      if e == s.d {
        assert u in s.a || u in s.was || u in s.b;
        assert u in s.was ==> u in s.now;
      }
    }
  }

  lemma {:induction false} RewriteElsewhere(t: Shape, t': Shape, root: Option<NodeId>, s: Site, touched: set<NodeId>)
    requires Tree(t, root) && Rewrites(t, t', s)
    requires s.q in touched && forall u {:trigger InSite(s, u)} :: InSite(s, u) ==> u in touched
    ensures Elsewhere(t, t', touched)
  {
    forall e: nat, u | e < |t'.levels| && u in t'.levels[e] && u !in touched
      ensures u in t.levels[e] && SameBody(t.ns, t'.ns, u) && SameFirst(t.first, t'.first, u) {
      ElsewhereOnLevel(t, t', root, s, e, u);
    }
  }

  lemma {:induction false} ElsewhereOnLevel(t: Shape, t': Shape, root: Option<NodeId>, s: Site, e: nat, u: NodeId)
    requires Tree(t, root) && Rewrites(t, t', s)
    requires e < |t'.levels| && u in t'.levels[e] && u != s.q && !InSite(s, u)
    ensures u in t.levels[e] && SameBody(t.ns, t'.ns, u) && SameFirst(t.first, t'.first, u)
  {
    if e == s.d {
      SiteFacts(t, t', root, s);
      assert u in s.a + s.now + s.b;
      assert u in s.a + s.was + s.b;
    }
    StaysOnLevel(t, t', root, s, e, u);
  }

  lemma {:induction false} StaysOnLevel(t: Shape, t': Shape, root: Option<NodeId>, s: Site, e: nat, u: NodeId)
    requires Tree(t, root) && Local(t, t', s)
    requires e < |t.levels| && u in t.levels[e] && u != s.q && !InSite(s, u)
    ensures SameBody(t.ns, t'.ns, u) && SameFirst(t.first, t'.first, u)
  {
    assert LevelAt(t, e);
    assert InPlace(t.ns, t.first, t.height, e, u);
  }

  /** x is the k-th child of the parent of the site, about to be split with y. */
  ghost predicate SplitAt(t: Shape, s: Site, x: NodeId, y: NodeId, k: nat)
  {
    && SiteOpen(t, s) && x in t.levels[s.d] && s.q in t.levels[s.d + 1]
    && s.was == [x] && s.now == [x, y]
    && k < |Kids(t.ns, s.q)| && s.left == Kids(t.ns, s.q)[..k] && s.right == Kids(t.ns, s.q)[k + 1..]
    && Kids(t.ns, s.q)[k] == x
    && x in t.ns && t.ns[x].parent == Some(s.q) && y !in t.height
  }

  lemma {:induction false} SplitOwnerAt(t: Shape, t': Shape, root: Option<NodeId>, s: Site, x: NodeId, y: NodeId,
      k: nat, top: SortKey)
    requires Tree(t, root) && SplitAt(t, s, x, y, k)
    requires SplitStore(t.ns, t'.ns, x, y, s.q, k, top) && t'.first == t.first[y := top]
    ensures Kids(t'.ns, s.q) == s.left + s.now + s.right && Exact(t'.ns, t'.first, s.q)
  {
    KidsOf(t, root, s.d + 1, s.q);
    KidsBelow(t, root, s.d + 1, s.q);
    SplitOwner(t, t', x, y, s.q, k, top);
  }

  lemma {:induction false} SplitRewrites(t: Shape, t': Shape, root: Option<NodeId>, s: Site, x: NodeId, y: NodeId,
      k: nat, top: SortKey)
    requires Tree(t, root) && SplitAt(t, s, x, y, k)
    requires SplitStore(t.ns, t'.ns, x, y, s.q, k, top) && t' == SplitShape(t, t'.ns, s, y, top)
    ensures Rewrites(t, t', s)
  {
    SplitOwnerAt(t, t', root, s, x, y, k, top);
    SplitLocal(t, t', root, s, x, y, k, top);
    SplitGroup(t, t', root, s, x, y, k, top);
    SplitChained(t.ns, t'.ns, s.a, x, y, s.b);
  }

  /** x hands its right half to the fresh node y; q is its parent. */
  lemma {:induction false} SplitStep(t: Shape, root: Option<NodeId>, d: nat, x: NodeId, y: NodeId, q: NodeId, k: nat,
      top: SortKey, ns': Nodes)
      returns (t': Shape)
    requires Tree(t, root) && d + 1 < |t.levels| && x in t.levels[d] && y !in t.height
    requires x in t.ns && t.ns[x].parent == Some(q) && k == IndexOf(x, Kids(t.ns, q))
    requires SplitStore(t.ns, ns', x, y, q, k, top)
    ensures t'.ns == ns' && Tree(t', root) && Contents(ns', t'.levels) == Contents(t.ns, t.levels)
    ensures Elsewhere(t, t', {x, y, q}) && Covers(t, t', {}) && t'.first == t.first[y := top]
    ensures t'.height == t.height[y := d]
    ensures x in t'.levels[d] && y in t'.levels[d] && q in t'.levels[d + 1]
  {
    var q', j, k' := FindParent(t, root, d, x);
    var s := SiteAt(t, d, j, k, 1, [x, y]);
    SiteOpens(t, root, d, j, k, 1, [x, y]);
    t' := SplitShape(t, ns', s, y, top);
    assert SplitAt(t, s, x, y, k);
    SplitCompletes(t, t', root, s, x, y, k, top);
  }

  lemma {:induction false} SplitCompletes(t: Shape, t': Shape, root: Option<NodeId>, s: Site, x: NodeId, y: NodeId,
      k: nat, top: SortKey)
    requires Tree(t, root) && SplitAt(t, s, x, y, k)
    requires SplitStore(t.ns, t'.ns, x, y, s.q, k, top) && t' == SplitShape(t, t'.ns, s, y, top)
    ensures Tree(t', root) && Contents(t'.ns, t'.levels) == Contents(t.ns, t.levels)
    ensures Elsewhere(t, t', {x, y, s.q}) && Covers(t, t', {})
    ensures x in t'.levels[s.d] && y in t'.levels[s.d] && s.q in t'.levels[s.d + 1]
  {
    SplitRewrites(t, t', root, s, x, y, k, top);
    RewriteKeepsTree(t, t', root, s);
    RewriteElsewhere(t, t', root, s, {x, y, s.q});
    RewriteCovers(t, t', root, s, {});
    assert s.now[0] == x && s.now[1] == y;
  }

  /** n after its chain predecessor was told to be y (if it is z) and its parent to be y (if moved). */
  function Ready(n: Node, u: NodeId, z: Option<NodeId>, y: NodeId, moved: seq<NodeId>): Node
  {
    var m := if z == Some(u) then n.(prev := Some(y)) else n;
    if u in moved then m.(parent := Some(y)) else m
  }

  /** The records as they are written during a split describe one. */
  lemma {:induction false} SplitStored(ns: Nodes, ns1: Nodes, ns': Nodes, x: NodeId, y: NodeId, q: NodeId, k: nat,
      top: SortKey,
      moved: seq<NodeId>, l: Node, r: Node, p: Node)
    requires x in ns && q in ns && ns[q].Inner? && x != q && y !in ns && x !in moved && q !in moved
    requires ns[x].next != Some(x) && ns[x].next != Some(q)
    requires forall u {:trigger u in ns1} :: u in ns && u != x && u != q ==>
      u in ns1 && ns1[u] == Ready(ns[u], u, ns[x].next, y, moved)
    requires ns' == ns1[y := r][q := p][x := l] && moved == (if r.Inner? then r.children else [])
    requires Halves(ns[x], l, r, top)
    requires ns[x].parent == Some(q) && l.parent == Some(q) && l.prev == ns[x].prev && l.next == Some(y)
    requires r.parent == Some(q) && r.prev == Some(x) && r.next == ns[x].next
    requires k < |ns[q].children| && |ns[q].children| == |ns[q].vals| + 1
    requires p == ns[q].(vals := ns[q].vals[..k] + [top] + ns[q].vals[k..],
      children := ns[q].children[..k] + [x, y] + ns[q].children[k + 1..])
    ensures SplitStore(ns, ns', x, y, q, k, top)
  {
    assert Kids(ns', y) == moved;
    forall u | u in ns && u != x && u != q ensures SameBody(ns, ns', u) { assert u in ns1; }
    forall u | u in ns ensures u in ns' && ns'[u].parent == if u in Kids(ns', y) then Some(y) else ns[u].parent {
      if u != x && u != q { assert u in ns1; }
    }
    forall u | u in ns && u != x
      ensures u in ns' && ns'[u].next == ns[u].next && ns'[u].prev == if ns[x].next == Some(u) then Some(y)
        else ns[u].prev {
      if u != q { assert u in ns1; }
    }
  }

  // ----- adding and dropping the root level

  /** A new root r over the old root x, holding no separator yet. */
  ghost function Grown(t: Shape, x: NodeId, r: NodeId): Shape
    requires x in t.ns && x in t.first
  {
    Shape(t.ns[x := t.ns[x].(parent := Some(r))][r := Inner([], [x], None, None, None)],
          t.levels + [[r]], t.first[r := t.first[x]], t.height[r := |t.levels|])
  }

  lemma {:induction false} GrownStays(t: Shape, x: NodeId, r: NodeId, d: nat, u: NodeId)
    requires Tree(t, Some(x)) && r !in t.ns && d < |t.levels| && u in t.levels[d]
    ensures x in t.ns && x in t.first && Stays(t, Grown(t, x, r), u)
    ensures d + 1 < |t.levels| ==> u != x && SameParent(t.ns, Grown(t, x, r).ns, u)
  {
    var top := |t.levels| - 1;
    assert LevelAt(t, top) && LevelAt(t, d) && t.levels[top][0] == x;
    TopIsRoot(t, Some(x), d, u);
  }

  lemma {:induction false} GrownTop(t: Shape, x: NodeId, r: NodeId)
    requires Tree(t, Some(x)) && r !in t.ns && x in t.ns && x in t.first
    ensures JoinedAt(Grown(t, x, r), |t.levels| - 1) && LevelAt(Grown(t, x, r), |t.levels|)
  {
    var t', top := Grown(t, x, r), |t.levels| - 1;
    assert t.levels[top] == [x] && t'.levels[top + 1] == [r] && Kids(t'.ns, r) == [x];
    GatherOne(KidRow(t'.ns), r);
    assert Exact(t'.ns, t'.first, r) && Adopted(t'.ns, r);
  }

  lemma {:induction false} Grow(t: Shape, x: NodeId, r: NodeId)
    requires Tree(t, Some(x)) && r !in t.ns
    ensures x in t.ns && x in t.first
    ensures Tree(Grown(t, x, r), Some(r))
    ensures Contents(Grown(t, x, r).ns, Grown(t, x, r).levels) == Contents(t.ns, t.levels)
  {
    var top := |t.levels| - 1;
    assert t.levels[top] == [x] && t.levels[top][0] == x;
    GrownStays(t, x, r, top, x);
    var t' := Grown(t, x, r);
    GrownTop(t, x, r);
    forall d: nat ensures LevelAt(t', d) {
      if d < |t.levels| {
        forall u | u in t.levels[d] ensures Stays(t, t', u) { GrownStays(t, x, r, d, u); }
        assert LevelAt(t, d);
        LevelKept(t, t', d);
      }
    }
    forall d: nat ensures JoinedAt(t', d) {
      if d < top {
        forall u | u in t.levels[d] ensures Stays(t, t', u) && SameParent(t.ns, t'.ns, u) { GrownStays(t, x, r, d, u); }
        forall u | u in t.levels[d + 1] ensures Stays(t, t', u) { GrownStays(t, x, r, d + 1, u); }
        assert JoinedAt(t, d);
        JoinKept(t, t', d);
      }
    }
    forall i | 0 <= i < |t.levels[0]| ensures SameBody(t.ns, t'.ns, t.levels[0][i]) {
      GrownStays(t, x, r, 0, t.levels[0][i]);
    }
    KidsFrame(t.ns, t'.ns, t.levels[0]);
  }

  /** The root r has one child c left, which becomes the root. */
  ghost predicate ShrunkStore(ns: Nodes, ns': Nodes, r: NodeId, c: NodeId)
  {
    && Kids(ns, r) == [c]
    && forall u {:trigger u in ns'} :: u in ns && u != r ==>
         && u in ns' && SameBody(ns, ns', u) && SameLinks(ns, ns', u)
         && ns'[u].parent == if u == c then None else ns[u].parent
  }

  ghost function Shrunk(t: Shape, ns': Nodes): Shape
    requires t.levels != []
  {
    Shape(ns', t.levels[..|t.levels| - 1], t.first, t.height)
  }

  lemma {:induction false} OnlyChild(t: Shape, r: NodeId, c: NodeId)
    requires Tree(t, Some(r)) && |t.levels| >= 2 && Kids(t.ns, r) == [c]
    ensures t.levels[|t.levels| - 2] == [c] && InPlace(t.ns, t.first, t.height, |t.levels| - 2, c)
  {
    var d := |t.levels| - 2;
    assert JoinedAt(t, d) && LevelAt(t, d);
    assert t.levels[d + 1] == [r];
    GatherOne(KidRow(t.ns), r);
    assert t.levels[d][0] == c;
  }

  lemma {:induction false} ShrunkStays(t: Shape, ns': Nodes, r: NodeId, c: NodeId, d: nat, u: NodeId)
    requires Tree(t, Some(r)) && ShrunkStore(t.ns, ns', r, c) && d + 1 < |t.levels| && u in t.levels[d]
    ensures u in ns' && Stays(t, Shrunk(t, ns'), u)
    ensures if d + 2 == |t.levels| then u == c && ns'[u].parent == None else SameParent(t.ns, ns', u)
  {
    OnlyChild(t, r, c);
    TopIsRoot(t, Some(r), d, u);
    assert LevelAt(t, d);
    assert u in ns';
  }

  lemma {:induction false} ShrunkLevels(t: Shape, ns': Nodes, r: NodeId, c: NodeId, d: nat)
    requires Tree(t, Some(r)) && |t.levels| >= 2 && ShrunkStore(t.ns, ns', r, c)
    ensures LevelAt(Shrunk(t, ns'), d) && JoinedAt(Shrunk(t, ns'), d)
  {
    var t' := Shrunk(t, ns');
    if d < |t'.levels| {
      forall u | u in t.levels[d] ensures Stays(t, t', u) { ShrunkStays(t, ns', r, c, d, u); }
      assert LevelAt(t, d) && JoinedAt(t, d);
      LevelKept(t, t', d);
      if d + 1 < |t'.levels| {
        forall u | u in t.levels[d + 1] ensures Stays(t, t', u) { ShrunkStays(t, ns', r, c, d + 1, u); }
        forall u | u in t.levels[d] ensures SameParent(t.ns, ns', u) { ShrunkStays(t, ns', r, c, d, u); }
        JoinKept(t, t', d);
      }
    }
  }

  lemma {:induction false} Shrink(t: Shape, ns': Nodes, r: NodeId, c: NodeId)
    requires Tree(t, Some(r)) && |t.levels| >= 2 && ShrunkStore(t.ns, ns', r, c)
    ensures Tree(Shrunk(t, ns'), Some(c))
    ensures Contents(ns', Shrunk(t, ns').levels) == Contents(t.ns, t.levels)
  {
    OnlyChild(t, r, c);
    var xs := t.levels[0];
    assert [c][0] == c;
    ShrunkStays(t, ns', r, c, |t.levels| - 2, c);
    forall d: nat ensures LevelAt(Shrunk(t, ns'), d) { ShrunkLevels(t, ns', r, c, d); }
    forall d: nat ensures JoinedAt(Shrunk(t, ns'), d) { ShrunkLevels(t, ns', r, c, d); }
    forall i | 0 <= i < |xs| ensures SameBody(t.ns, ns', xs[i]) { ShrunkStays(t, ns', r, c, 0, xs[i]); }
    KidsFrame(t.ns, ns', xs);
  }
}
