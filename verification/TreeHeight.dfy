/** How many documents a tree of a given height holds at least, so how deep descents and
    upward cascades can go. */
module TreeHeight {
  import opened Arithmetic
  import opened Lists
  import opened SortOrder
  import opened Layout
  import opened Steps
  import opened TreeInvariant

  lemma {:induction false} GatherAtLeast<A, T>(row: A -> seq<T>, xs: seq<A>, k: nat)
    requires forall i {:trigger xs[i]} :: 0 <= i < |xs| ==> |row(xs[i])| >= k
    ensures |Gather(row, xs)| >= k * |xs|
  {
    if xs != [] {
      assert |row(xs[0])| >= k;
      forall i | 0 <= i < |xs[1..]| ensures |row(xs[1..][i])| >= k { assert xs[1..][i] == xs[i + 1]; }
      GatherAtLeast(row, xs[1..], k);
      assert k * |xs| == k + k * |xs[1..]|;
    }
  }

  /** Below a level of inner nodes other than the root there are at least lo + 1 times as many nodes. */
  lemma {:induction false} Fanout(t: Shape, root: Option<NodeId>, lo: nat, hi: nat, d: nat)
    requires Tree(t, root) && Sized(t, root, lo, hi, {}) && d + 2 < |t.levels|
    ensures |t.levels[d]| >= (lo + 1) * |t.levels[d + 1]|
  {
    var up := t.levels[d + 1];
    assert JoinedAt(t, d);
    forall i | 0 <= i < |up| ensures |KidRow(t.ns)(up[i])| >= lo + 1 {
      KidsOf(t, root, d + 1, up[i]);
      TopIsRoot(t, root, d + 1, up[i]);
      var u := up[i];
      assert u in t.levels[d + 1] && SizeOk(t.ns, root, lo, hi, u);
    }
    GatherAtLeast(KidRow(t.ns), up, lo + 1);
  }

  lemma {:induction false} Spread(t: Shape, root: Option<NodeId>, lo: nat, hi: nat, d: nat)
    requires Tree(t, root) && Sized(t, root, lo, hi, {}) && d + 1 < |t.levels|
    ensures |t.levels[d]| >= 2 * Power(lo + 1, |t.levels| - 2 - d)
    decreases |t.levels| - d
  {
    if d + 2 == |t.levels| {
      var up := t.levels[d + 1];
      assert JoinedAt(t, d);
      forall i | 0 <= i < |up| ensures |KidRow(t.ns)(up[i])| >= 2 {
        KidsOf(t, root, d + 1, up[i]);
        var u := up[i];
        assert u in t.levels[d + 1] && SizeOk(t.ns, root, lo, hi, u);
      }
      GatherAtLeast(KidRow(t.ns), up, 2);
    } else {
      Spread(t, root, lo, hi, d + 1);
      Fanout(t, root, lo, hi, d);
      var e := |t.levels| - 3 - d;
      Scale(lo + 1, |t.levels[d + 1]|, 2 * Power(lo + 1, e));
      assert (lo + 1) * (2 * Power(lo + 1, e)) == 2 * ((lo + 1) * Power(lo + 1, e));
    }
  }

  lemma {:induction false} Scale(k: nat, a: nat, b: nat)
    requires a >= b
    ensures k * a >= k * b
  {
    assert k * a - k * b == k * (a - b);
  }

  /** With h levels of inner nodes there are at least 2 * lo * (lo + 1)^(h - 1) documents. */
  lemma {:induction false} HeightIsLogarithmic(t: Shape, root: Option<NodeId>, lo: nat, hi: nat)
    requires Tree(t, root) && Sized(t, root, lo, hi, {}) && |t.levels| >= 2
    ensures |Contents(t.ns, t.levels)| >= 2 * lo * Power(lo + 1, |t.levels| - 2)
  {
    hide *;
    var p := Power(lo + 1, |t.levels| - 2);
    Spread(t, root, lo, hi, 0);
    Filled(t, root, lo, hi);
    Scale(lo, |t.levels[0]|, 2 * p);
    Swap(lo, 2, p);
    assert 2 * (lo * p) == 2 * lo * p;
  }

  lemma {:induction false} Filled(t: Shape, root: Option<NodeId>, lo: nat, hi: nat)
    requires Tree(t, root) && Sized(t, root, lo, hi, {}) && |t.levels| >= 2
    ensures |Contents(t.ns, t.levels)| >= lo * |t.levels[0]|
  {
    var leaves := t.levels[0];
    forall i | 0 <= i < |leaves| ensures |IdRow(t.ns)(leaves[i])| >= lo {
      KidsOf(t, root, 0, leaves[i]);
      TopIsRoot(t, root, 0, leaves[i]);
      var u := leaves[i];
      assert u in t.levels[0] && SizeOk(t.ns, root, lo, hi, u);
    }
    GatherAtLeast(IdRow(t.ns), leaves, lo);
  }
}
