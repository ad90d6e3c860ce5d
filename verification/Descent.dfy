/** Positions on neighbouring levels, and what a descent from the root learns about
    the smallest keys around the node it reaches. */
module Descent {
  import opened Lists
  import opened SortOrder
  import opened Layout
  import opened Regroup
  import opened Steps
  import opened TreeInvariant

  /** The bound does not lie before node i of level d, nor after the next node's smallest key. */
  ghost predicate Between(t: Shape, fields: seq<SortField>, bound: SortKey, nullLast: bool, d: nat, i: nat)
  {
    && d < |t.levels| && i < |t.levels[d]|
    && (i > 0 ==> t.levels[d][i] in t.first && Comp(fields, bound, t.first[t.levels[d][i]], nullLast) <= 0)
    && (i + 1 < |t.levels[d]| ==>
      t.levels[d][i + 1] in t.first && Comp(fields, bound, t.first[t.levels[d][i + 1]], nullLast) == 1)
  }

  /** The children of node i start at position m of the level below. */
  ghost predicate StartsAt(t: Shape, d: nat, i: nat, m: nat)
  {
    && d + 1 < |t.levels| && i < |t.levels[d + 1]|
    && m == |Gather(KidRow(t.ns), t.levels[d + 1][..i])|
  }

  lemma {:induction false} ChildAt(t: Shape, root: Option<NodeId>, d: nat, i: nat, k: nat) returns (m: nat)
    requires Tree(t, root) && d + 1 < |t.levels| && i < |t.levels[d + 1]| && k < |Kids(t.ns, t.levels[d + 1][i])|
    ensures StartsAt(t, d, i, m) && m + k < |t.levels[d]| && t.levels[d][m + k] == Kids(t.ns, t.levels[d + 1][i])[k]
    ensures i == 0 ==> m == 0
    ensures i > 0 ==> m > 0
  {
    assert JoinedAt(t, d);
    var up, row := t.levels[d + 1], KidRow(t.ns);
    m := |Gather(row, up[..i])|;
    GatherAt(row, up, i, k);
    if i > 0 {
      assert Exact(t.ns, t.first, up[0]);
      assert up[..i] == [up[0]] + up[1..i];
      GatherConcat(row, [up[0]], up[1..i]);
      GatherOne(row, up[0]);
    }
  }

  lemma {:induction false} NextStartsAt(t: Shape, root: Option<NodeId>, d: nat, i: nat, m: nat)
    requires Tree(t, root) && StartsAt(t, d, i, m)
    ensures m + |Kids(t.ns, t.levels[d + 1][i])| <= |t.levels[d]|
    ensures i + 1 < |t.levels[d + 1]| ==> StartsAt(t, d, i + 1, m + |Kids(t.ns, t.levels[d + 1][i])|)
    ensures i + 1 == |t.levels[d + 1]| ==> m + |Kids(t.ns, t.levels[d + 1][i])| == |t.levels[d]|
  {
    assert JoinedAt(t, d);
    var up, row := t.levels[d + 1], KidRow(t.ns);
    assert up[..i + 1] == up[..i] + [up[i]];
    GatherConcat(row, up[..i], [up[i]]);
    GatherOne(row, up[i]);
    GatherAround(row, up, i);
    if i + 1 == |up| { assert up[i + 1..] == []; }
  }

  /** Going down to child k keeps the bound between the neighbours. */
  lemma {:induction false} BetweenBelow(t: Shape, root: Option<NodeId>, fields: seq<SortField>, bound: SortKey,
      nullLast: bool, d: nat, i: nat, k: nat) returns (m: nat)
    requires Tree(t, root) && Between(t, fields, bound, nullLast, d + 1, i)
    requires t.levels[d + 1][i] in t.ns && k < |Kids(t.ns, t.levels[d + 1][i])| && t.ns[t.levels[d + 1][i]].Inner?
    requires |t.ns[t.levels[d + 1][i]].children| == |t.ns[t.levels[d + 1][i]].vals| + 1
    requires k > 0 ==> Comp(fields, bound, t.ns[t.levels[d + 1][i]].vals[k - 1], nullLast) <= 0
    requires k < |t.ns[t.levels[d + 1][i]].vals| ==>
      Comp(fields, bound, t.ns[t.levels[d + 1][i]].vals[k], nullLast) == 1
    ensures Between(t, fields, bound, nullLast, d, m) && t.levels[d][m] == Kids(t.ns, t.levels[d + 1][i])[k]
  {
    assert JoinedAt(t, d);
    var up := t.levels[d + 1];
    var n := t.ns[up[i]];
    assert Exact(t.ns, t.first, up[i]);
    var s := ChildAt(t, root, d, i, k);
    m := s + k;
    if k < |n.vals| {
      var s' := ChildAt(t, root, d, i, k + 1);
      assert n.vals[k] == t.first[n.children[k + 1]];
    } else {
      NextStartsAt(t, root, d, i, s);
      if i + 1 < |up| {
        assert Exact(t.ns, t.first, up[i + 1]);
        var s' := ChildAt(t, root, d, i + 1, 0);
      }
    }
    if k > 0 { assert n.vals[k - 1] == t.first[n.children[k]]; }
  }
}
