/** Changing the documents of one leaf, and repairing the one separator above it
    that names the leaf's smallest key. */
module Repair {
  import opened Lists
  import opened SortOrder
  import opened Layout
  import opened Regroup
  import opened Steps

  // ----- editing a leaf

  /** u is the i-th leaf; its documents stand between those of the leaves around it. */
  lemma {:induction false} LeafContents(ns: Nodes, xs: seq<NodeId>, i: nat)
    requires i < |xs|
    ensures Gather(IdRow(ns), xs) == Gather(IdRow(ns), xs[..i]) + Ids(ns, xs[i]) + Gather(IdRow(ns), xs[i + 1..])
  {
    GatherAround(IdRow(ns), xs, i);
  }

  /** Only the documents of leaf u differ. */
  ghost predicate LeafEdited(ns: Nodes, ns': Nodes, u: NodeId)
  {
    && u in ns && u in ns' && ns[u].Leaf? && ns'[u].Leaf? && SameLinks(ns, ns', u) && SameParent(ns, ns', u)
    && forall v {:trigger v in ns'} :: v in ns && v != u ==> v in ns' && ns'[v] == ns[v]
  }

  lemma {:induction false} LeafEditJoin(t: Shape, t': Shape, root: Option<NodeId>, u: NodeId, d: nat)
    requires Tree(t, root) && t.levels != [] && u in t.levels[0]
    requires LeafEdited(t.ns, t'.ns, u) && t' == t.(ns := t'.ns)
    ensures LevelAt(t', d) && JoinedAt(t', d)
  {
    if d < |t.levels| {
      assert LevelAt(t, d) && JoinedAt(t, d);
      EditedLevel(t, t', u, d);
      if d + 1 < |t.levels| {
        assert LevelAt(t, d + 1) && LevelAt(t, 0);
        EditedJoin(t, t', u, d);
      }
    }
  }

  lemma {:induction false} EditedLevel(t: Shape, t': Shape, u: NodeId, d: nat)
    requires d < |t.levels| && LevelAt(t, d) && LeafEdited(t.ns, t'.ns, u) && t' == t.(ns := t'.ns)
    ensures LevelAt(t', d)
  {
    var xs := t.levels[d];
    forall i | 0 <= i < |xs| ensures InPlace(t'.ns, t'.first, t'.height, d, xs[i]) && SameLinks(t.ns, t'.ns, xs[i]) {
      assert InPlace(t.ns, t.first, t.height, d, xs[i]);
      assert xs[i] in t'.ns;
    }
    ChainedFrame(t.ns, t'.ns, xs);
  }

  lemma {:induction false} EditedJoin(t: Shape, t': Shape, u: NodeId, d: nat)
    requires d + 1 < |t.levels| && LevelAt(t, d + 1) && LevelAt(t, d) && JoinedAt(t, d)
    requires LevelAt(t, 0) && u in t.levels[0]
    requires LeafEdited(t.ns, t'.ns, u) && t' == t.(ns := t'.ns)
    ensures JoinedAt(t', d)
  {
    var up := t.levels[d + 1];
    forall i | 0 <= i < |up| ensures SameBody(t.ns, t'.ns, up[i]) && SameFirst(t.first, t'.first, up[i]) {
      assert InPlace(t.ns, t.first, t.height, d + 1, up[i]) && up[i] in t'.ns;
    }
    forall i, c | 0 <= i < |up| && c in Kids(t.ns, up[i])
        ensures SameFirst(t.first, t'.first, c) && SameParent(t.ns, t'.ns, c) {
      assert Exact(t.ns, t.first, up[i]) && Adopted(t.ns, up[i]);
      assert c in t'.ns;
    }
    SoundFrame(t.ns, t'.ns, t.first, t'.first, up);
    KidsFrame(t.ns, t'.ns, up);
  }

  /** Editing a leaf keeps the structure and replaces its stretch of the contents. */
  lemma {:induction false} LeafEdit(t: Shape, root: Option<NodeId>, i: nat, ns': Nodes)
    requires Tree(t, root) && t.levels != [] && i < |t.levels[0]|
    requires LeafEdited(t.ns, ns', t.levels[0][i])
    ensures Tree(t.(ns := ns'), root)
    ensures Gather(IdRow(ns'), t.levels[0][..i]) == Gather(IdRow(t.ns), t.levels[0][..i])
    ensures Gather(IdRow(ns'), t.levels[0][i + 1..]) == Gather(IdRow(t.ns), t.levels[0][i + 1..])
    ensures Contents(ns', t.levels) == Gather(IdRow(t.ns), t.levels[0][..i]) + Ids(ns',
      t.levels[0][i]) + Gather(IdRow(t.ns), t.levels[0][i + 1..])
  {
    var u, xs := t.levels[0][i], t.levels[0];
    var t' := t.(ns := ns');
    forall d: nat ensures LevelAt(t', d) { LeafEditJoin(t, t', root, u, d); }
    forall d: nat ensures JoinedAt(t', d) { LeafEditJoin(t, t', root, u, d); }
    EditedRoot(t, root, u, ns');
    assert LevelAt(t, 0);
    EditedRest(t.ns, ns', xs, i);
    LeafContents(ns', xs, i);
  }

  lemma {:induction false} EditedRoot(t: Shape, root: Option<NodeId>, u: NodeId, ns': Nodes)
    requires Rooted(t.ns, root, t.levels) && t.levels != [] && LeafEdited(t.ns, ns', u)
    ensures Rooted(ns', root, t.levels)
  {
    var r := root.value;
    assert r in t.ns;
    if r != u { assert r in ns'; }
  }

  lemma {:induction false} EditedRest(ns: Nodes, ns': Nodes, xs: seq<NodeId>, i: nat)
    requires i < |xs| && NoDup(xs) && LeafEdited(ns, ns', xs[i])
    requires forall j {:trigger xs[j]} :: 0 <= j < |xs| ==> xs[j] in ns
    ensures Gather(IdRow(ns'), xs[..i]) == Gather(IdRow(ns), xs[..i])
    ensures Gather(IdRow(ns'), xs[i + 1..]) == Gather(IdRow(ns), xs[i + 1..])
  {
    var a, b := xs[..i], xs[i + 1..];
    forall j | 0 <= j < |a| ensures SameBody(ns, ns', a[j]) {
      assert a[j] == xs[j] && Differ(xs, j, xs, i) && xs[j] in ns';
    }
    forall j | 0 <= j < |b| ensures SameBody(ns, ns', b[j]) {
      assert b[j] == xs[i + 1 + j] && Differ(xs, i, xs, i + 1 + j) && b[j] in ns';
    }
    KidsFrame(ns, ns', a);
    KidsFrame(ns, ns', b);
  }

  // ----- repairing the separator above

  ghost predicate AgreeAbove(t: Shape, F: Firsts, d: nat, n: NodeId)
  {
    forall e: nat, u {:trigger u in t.levels[e]} :: d <= e < |t.levels| && u in t.levels[e] && u != n ==>
        SameFirst(F, t.first, u)
  }

  /** Halfway through a repair: up to level d the smallest keys are the new ones, where
      only n has a new one on that level; above, the separators still fit the old ones, F. */
  ghost predicate Half(t: Shape, root: Option<NodeId>, F: Firsts, d: nat, n: NodeId)
  {
    && Rooted(t.ns, root, t.levels)
    && d < |t.levels| && n in t.levels[d] && n in F && n in t.first
    && (forall e: nat {:trigger LevelAt(t, e)} :: LevelAt(t, e))
    && (forall e: nat {:trigger JoinedAt(t, e)} :: e < d ==> JoinedAt(t, e))
    && (forall e: nat {:trigger JoinedAt(t.(first := F), e)} :: d <= e ==> JoinedAt(t.(first := F), e))
    && AgreeAbove(t, F, d, n)
  }

  lemma {:induction false} HalfStarts(t: Shape, root: Option<NodeId>, n: NodeId, key: SortKey)
    requires Tree(t, root) && t.levels != [] && n in t.levels[0]
    ensures Half(t.(first := t.first[n := key]), root, t.first, 0, n)
  {
    var t' := t.(first := t.first[n := key]);
    assert LevelAt(t, 0);
    forall e: nat ensures LevelAt(t', e) {
      assert LevelAt(t, e);
      if e < |t.levels| {
        forall i | 0 <= i < |t.levels[e]| ensures InPlace(t'.ns, t'.first, t'.height, e, t.levels[e][i]) {
          assert InPlace(t.ns, t.first, t.height, e, t.levels[e][i]);
        }
      }
    }
    assert t'.(first := t.first) == t;
    forall e: nat ensures JoinedAt(t, e) {}
    forall e: nat, u | e < |t.levels| && u in t.levels[e] && u != n ensures SameFirst(t.first, t'.first, u) {
      assert LevelAt(t, e);
    }
  }

  /** ns' differs from ns in the separators of q only. */
  ghost predicate Reworded(ns: Nodes, ns': Nodes, q: NodeId)
  {
    && q in ns && q in ns' && ns[q].Inner? && ns'[q].Inner? && ns'[q].children == ns[q].children
    && SameLinks(ns, ns', q) && SameParent(ns, ns', q)
    && forall v {:trigger v in ns'} :: v in ns && v != q ==> v in ns' && ns'[v] == ns[v]
  }

  lemma {:induction false} RewordedLevel(t: Shape, ns': Nodes, q: NodeId, e: nat)
    requires LevelAt(t, e) && Reworded(t.ns, ns', q)
    ensures LevelAt(t.(ns := ns'), e)
  {
    if e < |t.levels| {
      var xs := t.levels[e];
      forall i | 0 <= i < |xs| ensures InPlace(ns', t.first, t.height, e, xs[i]) && SameLinks(t.ns, ns', xs[i]) {
        assert InPlace(t.ns, t.first, t.height, e, xs[i]) && xs[i] in ns';
      }
      ChainedFrame(t.ns, ns', xs);
    }
  }

  /** Levels that do not have q as a parent, seen with smallest keys that agree on them. */
  lemma {:induction false} RewordedJoin(t: Shape, F: Firsts, ns': Nodes, q: NodeId, e: nat)
    requires e + 1 < |t.levels| && JoinedAt(t.(first := F), e) && Reworded(t.ns, ns', q)
    requires q !in t.levels[e + 1]
    requires forall u {:trigger SameFirst(F, t.first, u)} :: u in t.levels[e] || u in t.levels[e + 1] ==>
      SameFirst(F, t.first, u)
    ensures JoinedAt(t.(ns := ns'), e)
  {
    var up := t.levels[e + 1];
    forall i | 0 <= i < |up| ensures SameBody(t.ns, ns', up[i]) && SameFirst(F, t.first, up[i]) {
      assert Exact(t.ns, F, up[i]) && up[i] in ns' && up[i] in up;
    }
    forall i, c | 0 <= i < |up| && c in Kids(t.ns, up[i]) ensures SameFirst(F, t.first, c) && SameParent(t.ns, ns', c) {
      GatherMember(KidRow(t.ns), up, i, c);
      assert Adopted(t.ns, up[i]) && c in ns';
    }
    SoundFrame(t.ns, ns', F, t.first, up);
    KidsFrame(t.ns, ns', up);
  }

  lemma {:induction false} RewordedOwner(t: Shape, F: Firsts, ns': Nodes, n: NodeId, q: NodeId, k: nat)
    requires Exact(t.ns, F, q) && NoDup(Kids(t.ns, q)) && n in t.first && Reworded(t.ns, ns', q)
    requires 0 < k <= |t.ns[q].vals| && t.ns[q].children[k] == n
    requires ns'[q].vals == t.ns[q].vals[k - 1 := t.first[n]]
    requires SameFirst(F, t.first, q)
    requires forall c {:trigger SameFirst(F, t.first, c)} :: c in Kids(t.ns, q) && c != n ==> SameFirst(F, t.first, c)
    ensures Exact(ns', t.first, q)
  {
    var cs, vs, vs' := t.ns[q].children, t.ns[q].vals, ns'[q].vals;
    forall i | 0 <= i < |cs| ensures cs[i] in t.first && (i != k ==> SameFirst(F, t.first, cs[i])) {
      assert Differ(Kids(t.ns, q), i, Kids(t.ns, q), k) || i >= k;
      assert Differ(Kids(t.ns, q), k, Kids(t.ns, q), i) || i <= k;
      assert cs[i] in Kids(t.ns, q);
      assert i != k ==> SameFirst(F, t.first, cs[i]);
    }
    forall i | 0 <= i < |vs'| ensures vs'[i] == t.first[cs[i + 1]] {
      assert i != k - 1 ==> vs'[i] == vs[i];
    }
  }

  /** The level right above n: q is repaired, the other parents do not have n as a child. */
  lemma {:induction false} RewordedHere(t: Shape, root: Option<NodeId>, F: Firsts, d: nat, n: NodeId, q: NodeId,
      k: nat, ns': Nodes)
    requires Half(t, root, F, d, n) && d + 1 < |t.levels| && Reworded(t.ns, ns', q)
    requires n in t.ns && t.ns[n].parent == Some(q) && k == IndexOf(n, Kids(t.ns, q)) && 0 < k <= |t.ns[q].vals|
    requires ns'[q].vals == t.ns[q].vals[k - 1 := t.first[n]]
    ensures JoinedAt(t.(ns := ns'), d)
  {
    var tF := t.(first := F);
    assert JoinedAt(tF, d) && LevelAt(t, d) && LevelAt(t, d + 1);
    assert LevelAt(tF, d) by { HalfOldLevel(t, root, F, d, n, d); }
    var q', j, k' := FindOwner(tF, d, n);
    var up := t.levels[d + 1];
    forall i | 0 <= i < |up| ensures Exact(ns', t.first, up[i]) && Adopted(ns', up[i]) {
      HereAt(t, root, F, d, n, q, k, ns', up[i]);
    }
    forall i | 0 <= i < |up| ensures KidRow(ns')(up[i]) == KidRow(t.ns)(up[i]) {
      assert InPlace(t.ns, t.first, t.height, d + 1, up[i]) && up[i] in ns';
    }
    GatherFrame(KidRow(t.ns), KidRow(ns'), up);
  }

  lemma {:induction false} HalfOldLevel(t: Shape, root: Option<NodeId>, F: Firsts, d: nat, n: NodeId, e: nat)
    requires Half(t, root, F, d, n) && d <= e
    ensures LevelAt(t.(first := F), e)
  {
    assert LevelAt(t, e);
    if e < |t.levels| {
      forall i | 0 <= i < |t.levels[e]| ensures InPlace(t.ns, F, t.height, e, t.levels[e][i]) {
        assert InPlace(t.ns, t.first, t.height, e, t.levels[e][i]) && t.levels[e][i] in t.levels[e];
      }
    }
  }

  lemma {:induction false} HereAt(t: Shape, root: Option<NodeId>, F: Firsts, d: nat, n: NodeId, q: NodeId, k: nat,
      ns': Nodes, v: NodeId)
    requires Half(t, root, F, d, n) && d + 1 < |t.levels| && Reworded(t.ns, ns', q) && v in t.levels[d + 1]
    requires n in t.ns && t.ns[n].parent == Some(q) && k == IndexOf(n, Kids(t.ns, q)) && 0 < k <= |t.ns[q].vals|
    requires NoDup(Kids(t.ns, q))
    requires ns'[q].vals == t.ns[q].vals[k - 1 := t.first[n]]
    ensures Exact(ns', t.first, v) && Adopted(ns', v)
  {
    assert LevelAt(t, d) && LevelAt(t, d + 1) && JoinedAt(t.(first := F), d);
    var up := t.levels[d + 1];
    var i :| 0 <= i < |up| && up[i] == v;
    assert Exact(t.ns, F, v) && Adopted(t.ns, v) && v != n && v in ns';
    forall c | c in Kids(t.ns, v)
        ensures c in t.levels[d] && SameParent(t.ns, ns', c) && (c != n ==> SameFirst(F, t.first, c)) {
      GatherMember(KidRow(t.ns), up, i, c);
      assert c in ns';
    }
    assert SameFirst(F, t.first, v);
    if v == q {
      RewordedOwner(t, F, ns', n, q, k);
    } else {
      assert n !in Kids(t.ns, v);
      ExactFrame(t.ns, ns', F, t.first, v);
    }
    assert Kids(ns', v) == Kids(t.ns, v);
  }

  /** The separator that names n's smallest key sits with its parent q, left of child k > 0. */
  lemma {:induction false} RepairSeparator(t: Shape, root: Option<NodeId>, F: Firsts, d: nat, n: NodeId, q: NodeId,
      k: nat, ns': Nodes)
    requires Half(t, root, F, d, n) && d + 1 < |t.levels| && Reworded(t.ns, ns', q)
    requires n in t.ns && t.ns[n].parent == Some(q) && k == IndexOf(n, Kids(t.ns, q)) && 0 < k <= |t.ns[q].vals|
    requires ns'[q].vals == t.ns[q].vals[k - 1 := t.first[n]]
    ensures Tree(t.(ns := ns'), root)
  {
    forall e: nat ensures LevelAt(t.(ns := ns'), e) {
      assert LevelAt(t, e);
      RewordedLevel(t, ns', q, e);
    }
    forall e: nat ensures JoinedAt(t.(ns := ns'), e) {
      if e == d {
        RewordedHere(t, root, F, d, n, q, k, ns');
      } else if e + 1 < |t.levels| {
        RewordedElsewhere(t, root, F, d, n, q, k, ns', e);
      }
    }
    var r := root.value;
    assert r != q ==> r in ns';
  }

  lemma {:induction false} RewordedElsewhere(t: Shape, root: Option<NodeId>, F: Firsts, d: nat, n: NodeId, q: NodeId,
      k: nat, ns': Nodes, e: nat)
    requires Half(t, root, F, d, n) && d + 1 < |t.levels| && Reworded(t.ns, ns', q) && e + 1 < |t.levels| && e != d
    requires n in t.ns && t.ns[n].parent == Some(q)
    ensures JoinedAt(t.(ns := ns'), e)
  {
    var tF := t.(first := F);
    assert JoinedAt(tF, d) && LevelAt(t, d + 1) && LevelAt(t, e + 1) && LevelAt(t, e);
    HalfOldLevel(t, root, F, d, n, d);
    var q', j, k' := FindOwner(tF, d, n);
    assert InPlace(t.ns, t.first, t.height, d + 1, q);
    assert q !in t.levels[e + 1];
    if e < d {
      assert JoinedAt(t, e);
      assert t.(first := t.first) == t;
      RewordedJoin(t, t.first, ns', q, e);
    } else {
      assert JoinedAt(tF, e) && LevelAt(t, d);
      RewordedJoin(t, F, ns', q, e);
    }
  }

  /** Levels joined under the smallest keys F stay joined under any that agree on them. */
  lemma {:induction false} RekeyedJoin(t: Shape, F: Firsts, G: Firsts, e: nat)
    requires e + 1 < |t.levels| && JoinedAt(t.(first := F), e)
    requires forall u {:trigger SameFirst(F, G, u)} :: u in t.levels[e] || u in t.levels[e + 1] ==> SameFirst(F, G, u)
    ensures JoinedAt(t.(first := G), e)
  {
    var up := t.levels[e + 1];
    forall i | 0 <= i < |up| ensures SameBody(t.ns, t.ns, up[i]) && SameFirst(F, G, up[i]) {
      assert Exact(t.ns, F, up[i]) && up[i] in up;
    }
    forall i, c | 0 <= i < |up| && c in Kids(t.ns, up[i]) ensures SameFirst(F, G, c) && SameParent(t.ns, t.ns, c) {
      GatherMember(KidRow(t.ns), up, i, c);
      assert Adopted(t.ns, up[i]);
    }
    SoundFrame(t.ns, t.ns, F, G, up);
  }

  lemma {:induction false} UpHereAt(t: Shape, root: Option<NodeId>, F: Firsts, d: nat, n: NodeId, q: NodeId, v: NodeId)
    requires Half(t, root, F, d, n) && d + 1 < |t.levels| && v in t.levels[d + 1] && q in t.levels[d + 1]
    requires n in t.ns && t.ns[n].parent == Some(q) && Kids(t.ns, q) != [] && Kids(t.ns, q)[0] == n
    requires NoDup(Kids(t.ns, q))
    ensures Exact(t.ns, t.first[q := t.first[n]], v) && Adopted(t.ns, v)
  {
    var G := t.first[q := t.first[n]];
    assert LevelAt(t, d) && LevelAt(t, d + 1) && JoinedAt(t.(first := F), d);
    var up := t.levels[d + 1];
    var i :| 0 <= i < |up| && up[i] == v;
    assert Exact(t.ns, F, v) && Adopted(t.ns, v) && v != n;
    forall c | c in Kids(t.ns, v) ensures c in G && (c != n ==> SameFirst(F, G, c)) {
      GatherMember(KidRow(t.ns), up, i, c);
      assert c in t.levels[d] && c != q;
      assert c != n ==> SameFirst(F, t.first, c);
    }
    if v == q {
      UpOwner(t.ns, F, G, n, q);
    } else {
      assert n !in Kids(t.ns, v) && SameFirst(F, t.first, v);
      ExactFrame(t.ns, t.ns, F, G, v);
    }
  }

  lemma {:induction false} UpOwner(ns: Nodes, F: Firsts, G: Firsts, n: NodeId, q: NodeId)
    requires Exact(ns, F, q) && NoDup(Kids(ns, q)) && ns[q].children[0] == n
    requires n in G && q in G && G[q] == G[n]
    requires forall c {:trigger SameFirst(F, G, c)} :: c in Kids(ns, q) && c != n ==> SameFirst(F, G, c)
    ensures Exact(ns, G, q)
  {
    var cs := ns[q].children;
    forall j | 0 <= j < |cs| ensures cs[j] in G && (j > 0 ==> SameFirst(F, G, cs[j])) {
      assert cs[j] in Kids(ns, q);
      if j > 0 {
        assert Differ(Kids(ns, q), 0, Kids(ns, q), j);
        assert SameFirst(F, G, cs[j]);
      }
    }
  }

  lemma {:induction false} UpHere(t: Shape, root: Option<NodeId>, F: Firsts, d: nat, n: NodeId, q: NodeId)
    requires Half(t, root, F, d, n) && d + 1 < |t.levels|
    requires n in t.ns && t.ns[n].parent == Some(q) && IndexOf(n, Kids(t.ns, q)) == 0
    ensures q in t.levels[d + 1] && InPlace(t.ns, t.first, t.height, d + 1, q)
    ensures JoinedAt(t.(first := t.first[q := t.first[n]]), d)
  {
    var tF := t.(first := F);
    assert JoinedAt(tF, d) && LevelAt(t, d) && LevelAt(t, d + 1);
    HalfOldLevel(t, root, F, d, n, d);
    var q', j, k' := FindOwner(tF, d, n);
    var up := t.levels[d + 1];
    forall i | 0 <= i < |up| ensures Exact(t.ns, t.first[q := t.first[n]], up[i]) && Adopted(t.ns, up[i]) {
      UpHereAt(t, root, F, d, n, q, up[i]);
    }
  }

  /** n is the leftmost child of q: the smallest key of q changes along. */
  lemma {:induction false} RepairUp(t: Shape, root: Option<NodeId>, F: Firsts, d: nat, n: NodeId, q: NodeId)
    requires Half(t, root, F, d, n) && d + 1 < |t.levels|
    requires n in t.ns && t.ns[n].parent == Some(q) && IndexOf(n, Kids(t.ns, q)) == 0
    ensures q in t.levels[d + 1] && Half(t.(first := t.first[q := t.first[n]]), root, F, d + 1, q)
  {
    UpHere(t, root, F, d, n, q);
    var t' := t.(first := t.first[q := t.first[n]]);
    forall e: nat ensures LevelAt(t', e) { UpLevel(t, t.first[n], q, e); }
    forall e: nat | e < d + 1 ensures JoinedAt(t', e) {
      if e < d { UpBelow(t, root, F, d, n, q, e); }
    }
    forall e: nat | d + 1 <= e ensures JoinedAt(t'.(first := F), e) {
      assert t'.(first := F) == t.(first := F);
      assert JoinedAt(t.(first := F), e);
    }
    UpAgrees(t, root, F, d, n, q);
  }

  lemma {:induction false} UpLevel(t: Shape, key: SortKey, q: NodeId, e: nat)
    requires LevelAt(t, e)
    ensures LevelAt(t.(first := t.first[q := key]), e)
  {
    if e < |t.levels| {
      var xs := t.levels[e];
      forall i | 0 <= i < |xs| ensures InPlace(t.ns, t.first[q := key], t.height, e, xs[i]) {
        assert InPlace(t.ns, t.first, t.height, e, xs[i]);
      }
    }
  }

  lemma {:induction false} UpBelow(t: Shape, root: Option<NodeId>, F: Firsts, d: nat, n: NodeId, q: NodeId, e: nat)
    requires Half(t, root, F, d, n) && d + 1 < |t.levels| && e < d && InPlace(t.ns, t.first, t.height, d + 1, q)
    ensures JoinedAt(t.(first := t.first[q := t.first[n]]), e)
  {
    assert JoinedAt(t, e) && LevelAt(t, e) && LevelAt(t, e + 1);
    assert t.(first := t.first) == t;
    forall u | u in t.levels[e] || u in t.levels[e + 1] ensures SameFirst(t.first, t.first[q := t.first[n]], u) {
      assert u != q;
    }
    RekeyedJoin(t, t.first, t.first[q := t.first[n]], e);
  }

  lemma {:induction false} UpAgrees(t: Shape, root: Option<NodeId>, F: Firsts, d: nat, n: NodeId, q: NodeId)
    requires Half(t, root, F, d, n) && d + 1 < |t.levels| && q in t.levels[d + 1]
    ensures AgreeAbove(t.(first := t.first[q := t.first[n]]), F, d + 1, q) && q in F
  {
    assert LevelAt(t, d);
    var t' := t.(first := t.first[q := t.first[n]]);
    forall e: nat, u | d + 1 <= e < |t'.levels| && u in t'.levels[e] && u != q ensures SameFirst(F, t'.first, u) {
      assert LevelAt(t, e);
      assert u != n && u in t.levels[e];
    }
    assert LevelAt(t, d + 1) && q != n && q in t.levels[d + 1];
  }

  /** No separator names the smallest key of the root. */
  lemma {:induction false} RepairTop(t: Shape, root: Option<NodeId>, F: Firsts, d: nat, n: NodeId)
    requires Half(t, root, F, d, n) && d + 1 == |t.levels|
    ensures Tree(t, root)
  {
    forall e: nat ensures JoinedAt(t, e) {
      if e >= d {} else { assert JoinedAt(t, e); }
    }
  }
}
