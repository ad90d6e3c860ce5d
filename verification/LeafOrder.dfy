/** Leaf positions in the sorted sequence of documents. */
module LeafOrder {
  import opened Lists
  import opened SortOrder
  import opened Layout
  import opened Regroup
  import opened Steps
  import opened Repair
  import opened TreeInvariant
  import opened Descent

  /** The last sort field is the document id, so no two documents share a sort key. */
  predicate EndsWithId(fields: seq<SortField>)
  {
    fields != [] && fields[|fields| - 1].name == ID_FIELD
  }

  lemma {:induction false} KeysDiffer(fields: seq<SortField>, docs: Docs, x: DocId, y: DocId)
    requires EndsWithId(fields) && KeyOf(fields, docs, x) == KeyOf(fields, docs, y)
    ensures x == y
  {
    var j := |fields| - 1;
    assert KeyOf(fields, docs, x).parts[j] == Some(Text(x));
    assert KeyOf(fields, docs, y).parts[j] == Some(Text(y));
  }

  /** How a bound compares with the p-th document of c. */
  ghost function CompAt(fields: seq<SortField>, docs: Docs, bound: SortKey, c: seq<DocId>, p: int, nullLast: bool): int
  {
    if 0 <= p < |c| then Comp(fields, bound, KeyOf(fields, docs, c[p]), nullLast) else 0
  }

  /** A bound after some document is after all earlier ones; before one, before all later ones. */
  lemma {:induction false} CompMonotone(fields: seq<SortField>, docs: Docs, bound: SortKey, c: seq<DocId>, p: nat,
      q: nat, nullLast: bool)
    requires Sorted(fields, docs, c) && |bound.parts| == |fields| && p < q < |c|
    ensures CompAt(fields, docs, bound, c, q, nullLast) <= 0 ==> CompAt(fields, docs, bound, c, p, nullLast) == -1
    ensures CompAt(fields, docs, bound, c, p, nullLast) >= 0 ==> CompAt(fields, docs, bound, c, q, nullLast) == 1
  {
    var x, y := KeyOf(fields, docs, c[p]), KeyOf(fields, docs, c[q]);
    assert Precedes(fields, docs, c, p, q);
    assert Full(KeyOf(fields, docs, c[p])) && Full(KeyOf(fields, docs, c[q]));
    FullIgnoresNullsFrom(fields, x, y, 0);
    CompIsTotalOrder(fields, bound, x, y, nullLast);
    CompIsTotalOrder(fields, x, y, bound, nullLast);
    CompIsTotalOrder(fields, bound, y, x, nullLast);
  }

  /** Leaf i holds the documents from position m on. */
  ghost predicate LeafAt(t: Shape, i: nat, m: nat)
  {
    && t.levels != [] && i < |t.levels[0]|
    && m == |Gather(IdRow(t.ns), t.levels[0][..i])|
    && m + |Ids(t.ns, t.levels[0][i])| <= |Contents(t.ns, t.levels)|
    && (forall j {:trigger Ids(t.ns, t.levels[0][i])[j]} :: 0 <= j < |Ids(t.ns, t.levels[0][i])| ==>
          Contents(t.ns, t.levels)[m + j] == Ids(t.ns, t.levels[0][i])[j])
  }

  lemma {:induction false} LeafStart(t: Shape, i: nat) returns (m: nat)
    requires t.levels != [] && i < |t.levels[0]|
    ensures LeafAt(t, i, m)
    ensures i == 0 ==> m == 0
    ensures i + 1 < |t.levels[0]| ==> LeafAt(t, i + 1, m + |Ids(t.ns, t.levels[0][i])|)
    ensures i + 1 == |t.levels[0]| ==> m + |Ids(t.ns, t.levels[0][i])| == |Contents(t.ns, t.levels)|
  {
    var xs, row := t.levels[0], IdRow(t.ns);
    m := |Gather(row, xs[..i])|;
    LeafIndex(t, i, m);
    GatherAround(row, xs, i);
    if i + 1 < |xs| {
      assert xs[..i + 1] == xs[..i] + [xs[i]];
      GatherConcat(row, xs[..i], [xs[i]]);
      GatherOne(row, xs[i]);
      LeafIndex(t, i + 1, m + |row(xs[i])|);
    } else {
      assert xs[i + 1..] == [];
    }
  }

  lemma {:induction false} LeafIndex(t: Shape, i: nat, m: nat)
    requires t.levels != [] && i < |t.levels[0]| && m == |Gather(IdRow(t.ns), t.levels[0][..i])|
    ensures LeafAt(t, i, m)
  {
    var xs, row := t.levels[0], IdRow(t.ns);
    GatherAround(row, xs, i);
    forall j | 0 <= j < |row(xs[i])| ensures Contents(t.ns, t.levels)[m + j] == row(xs[i])[j] {
      GatherAt(row, xs, i, j);
    }
  }

  /** Where a bound found between leaves stands in the whole sequence. */
  lemma {:induction false} AroundLeaf(t: Shape, root: Option<NodeId>, fields: seq<SortField>, docs: Docs,
      bound: SortKey, nullLast: bool, i: nat) returns (m: nat)
    requires Tree(t, root) && Keyed(t, fields, docs, {}) && Sorted(fields, docs, Contents(t.ns, t.levels))
    requires |bound.parts| == |fields|
    requires Between(t, fields, bound, nullLast, 0, i)
    ensures LeafAt(t, i, m)
    ensures i > 0 ==>
      Ids(t.ns, t.levels[0][i]) != [] && CompAt(fields, docs, bound, Contents(t.ns, t.levels), m, nullLast) <= 0
    ensures forall p {:trigger CompAt(fields, docs, bound, Contents(t.ns, t.levels), p, nullLast)} ::
      0 <= p < m ==> CompAt(fields, docs, bound, Contents(t.ns, t.levels), p, nullLast) == -1
    ensures forall p {:trigger CompAt(fields, docs, bound, Contents(t.ns, t.levels), p, nullLast)} ::
      m + |Ids(t.ns, t.levels[0][i])| <= p < |Contents(t.ns, t.levels)| ==>
          CompAt(fields, docs, bound, Contents(t.ns, t.levels), p, nullLast) == 1
    ensures i + 1 < |t.levels[0]| <==> m + |Ids(t.ns, t.levels[0][i])| < |Contents(t.ns, t.levels)|
    ensures m > 0 <==> i > 0
  {
    m := LeafStart(t, i);
    LeftOfLeaf(t, fields, docs, bound, nullLast, i, m);
    RightOfLeaf(t, fields, docs, bound, nullLast, i, m);
  }

  lemma {:induction false} LeftOfLeaf(t: Shape, fields: seq<SortField>, docs: Docs, bound: SortKey, nullLast: bool,
      i: nat, m: nat)
    requires Keyed(t, fields, docs, {}) && Sorted(fields, docs, Contents(t.ns, t.levels)) && |bound.parts| == |fields|
    requires Between(t, fields, bound, nullLast, 0, i) && LeafAt(t, i, m)
    ensures m > 0 <==> i > 0
    ensures i > 0 ==>
      Ids(t.ns, t.levels[0][i]) != [] && CompAt(fields, docs, bound, Contents(t.ns, t.levels), m, nullLast) <= 0
    ensures forall p {:trigger CompAt(fields, docs, bound, Contents(t.ns, t.levels), p, nullLast)} ::
      0 <= p < m ==> CompAt(fields, docs, bound, Contents(t.ns, t.levels), p, nullLast) == -1
  {
    var c, xs := Contents(t.ns, t.levels), t.levels[0];
    if i > 0 {
      LeafBegins(t, fields, docs, i, m);
      forall p | 0 <= p < m ensures CompAt(fields, docs, bound, c, p, nullLast) == -1 {
        CompMonotone(fields, docs, bound, c, p, m, nullLast);
      }
      LeafIndex(t, 0, 0);
      LeafBegins(t, fields, docs, 0, 0);
      assert xs[..i] == [xs[0]] + xs[1..i];
      GatherConcat(IdRow(t.ns), [xs[0]], xs[1..i]);
      GatherOne(IdRow(t.ns), xs[0]);
    }
  }

  lemma {:induction false} RightOfLeaf(t: Shape, fields: seq<SortField>, docs: Docs, bound: SortKey, nullLast: bool,
      i: nat, m: nat)
    requires Keyed(t, fields, docs, {}) && Sorted(fields, docs, Contents(t.ns, t.levels)) && |bound.parts| == |fields|
    requires Between(t, fields, bound, nullLast, 0, i) && LeafAt(t, i, m)
    ensures forall p {:trigger CompAt(fields, docs, bound, Contents(t.ns, t.levels), p, nullLast)} ::
      m + |Ids(t.ns, t.levels[0][i])| <= p < |Contents(t.ns, t.levels)| ==>
          CompAt(fields, docs, bound, Contents(t.ns, t.levels), p, nullLast) == 1
    ensures i + 1 < |t.levels[0]| <==> m + |Ids(t.ns, t.levels[0][i])| < |Contents(t.ns, t.levels)|
  {
    var c, xs := Contents(t.ns, t.levels), t.levels[0];
    var e := m + |Ids(t.ns, xs[i])|;
    var m' := LeafStart(t, i);
    if i + 1 < |xs| {
      LeafBegins(t, fields, docs, i + 1, e);
      forall p | e <= p < |c| ensures CompAt(fields, docs, bound, c, p, nullLast) == 1 {
        if p > e { CompMonotone(fields, docs, bound, c, e, p, nullLast); }
      }
    }
  }

  lemma {:induction false} LeafBegins(t: Shape, fields: seq<SortField>, docs: Docs, i: nat, m: nat)
    requires LeafAt(t, i, m) && Keyed(t, fields, docs, {})
    ensures Ids(t.ns, t.levels[0][i]) != [] && m < |Contents(t.ns, t.levels)|
    ensures t.levels[0][i] in t.first && t.first[t.levels[0][i]] == KeyOf(fields, docs, Contents(t.ns, t.levels)[m])
  {
    var u := t.levels[0][i];
    assert OnLevel(t, 0, u) && LeafFirst(t.ns, t.first, fields, docs, u);
    assert Ids(t.ns, u)[0] == t.ns[u].ids[0];
  }

  /** ids stand in c from position m on. */
  ghost predicate StandsAt(c: seq<DocId>, ids: seq<DocId>, m: nat)
  {
    m + |ids| <= |c| && forall j {:trigger ids[j]} :: 0 <= j < |ids| ==> c[m + j] == ids[j]
  }

  lemma {:induction false} SortedStretch(fields: seq<SortField>, docs: Docs, c: seq<DocId>, ids: seq<DocId>, m: nat)
    requires Sorted(fields, docs, c) && StandsAt(c, ids, m)
    ensures Sorted(fields, docs, ids)
  {
    forall i, j ensures Precedes(fields, docs, ids, i, j) {
      if 0 <= i < j < |ids| {
        assert Precedes(fields, docs, c, m + i, m + j) && ids[i] == c[m + i] && ids[j] == c[m + j];
      }
    }
  }

  lemma {:induction false} FoundInStretch(fields: seq<SortField>, docs: Docs, c: seq<DocId>, ids: seq<DocId>, m: nat,
      key: DocId)
    requires StandsAt(c, ids, m)
    requires forall p {:trigger CompAt(fields, docs, KeyOf(fields, docs, key), c, p, false)} ::
      0 <= p < m ==> CompAt(fields, docs, KeyOf(fields, docs, key), c, p, false) == -1
    requires forall p {:trigger CompAt(fields, docs, KeyOf(fields, docs, key), c, p, false)} ::
      m + |ids| <= p < |c| ==> CompAt(fields, docs, KeyOf(fields, docs, key), c, p, false) == 1
    ensures key in c <==> key in ids
  {
    var b := KeyOf(fields, docs, key);
    if key in c {
      var p :| 0 <= p < |c| && c[p] == key;
      CompIsTotalOrder(fields, b, b, b, false);
      assert CompAt(fields, docs, b, c, p, false) == 0;
      assert m <= p < m + |ids| && ids[p - m] == key;
    }
    if key in ids {
      var j :| 0 <= j < |ids| && ids[j] == key;
      assert c[m + j] == key;
    }
  }

  /** A document's own sort key leads to the leaf that lists it, if any does. */
  lemma {:induction false} FoundInLeaf(t: Shape, root: Option<NodeId>, fields: seq<SortField>, docs: Docs, key: DocId,
      i: nat) returns (m: nat)
    requires Tree(t, root) && Keyed(t, fields, docs, {}) && Sorted(fields, docs, Contents(t.ns, t.levels))
    requires Between(t, fields, KeyOf(fields, docs, key), false, 0, i)
    ensures LeafAt(t, i, m) && Sorted(fields, docs, Ids(t.ns, t.levels[0][i]))
    ensures key in Contents(t.ns, t.levels) <==> key in Ids(t.ns, t.levels[0][i])
  {
    var b, c, ids := KeyOf(fields, docs, key), Contents(t.ns, t.levels), Ids(t.ns, t.levels[0][i]);
    hide Tree, Keyed, Between, Sorted, Comp, KeyOf;
    m := AroundLeaf(t, root, fields, docs, b, false, i);
    assert StandsAt(c, ids, m);
    SortedStretch(fields, docs, c, ids, m);
    hide LeafAt, Contents, Ids;
    FoundInStretch(fields, docs, c, ids, m, key);
  }

  /** The record of the i-th leaf. */
  lemma {:induction false} LeafRecord(t: Shape, root: Option<NodeId>, fields: seq<SortField>, docs: Docs, i: nat)
    requires Tree(t, root) && Keyed(t, fields, docs, {}) && t.levels != [] && i < |t.levels[0]|
    ensures t.levels[0][i] in t.ns && t.ns[t.levels[0][i]].Leaf? && t.ns[t.levels[0][i]].ids != []
    ensures Ids(t.ns, t.levels[0][i]) == t.ns[t.levels[0][i]].ids
    ensures t.ns[t.levels[0][i]].prev == At(t.levels[0], i - 1) && t.ns[t.levels[0][i]].next == At(t.levels[0], i + 1)
  {
    var u := t.levels[0][i];
    assert OnLevel(t, 0, u) && LeafFirst(t.ns, t.first, fields, docs, u);
    assert LevelAt(t, 0) && LinkedAt(t.ns, t.levels[0], i);
  }

  lemma {:induction false} OnePlace(t: Shape, i: nat, m: nat, m': nat)
    requires LeafAt(t, i, m) && LeafAt(t, i, m')
    ensures m == m'
  {
  }

  lemma {:induction false} LeafAtLevel(t: Shape, i: nat, m: nat)
    requires LeafAt(t, i, m)
    ensures t.levels != [] && i < |t.levels[0]|
  {
  }

  /** next leads to the leaf that continues the documents. */
  lemma {:induction false} NextLeaf(t: Shape, root: Option<NodeId>, fields: seq<SortField>, docs: Docs, i: nat, m: nat)
    requires Tree(t, root) && Keyed(t, fields, docs, {}) && LeafAt(t, i, m)
    ensures t.levels[0][i] in t.ns && t.ns[t.levels[0][i]].Leaf? && t.ns[t.levels[0][i]].ids != []
    ensures t.ns[t.levels[0][i]].next == At(t.levels[0], i + 1)
    ensures i + 1 < |t.levels[0]| ==> LeafAt(t, i + 1, m + |Ids(t.ns, t.levels[0][i])|)
    ensures i + 1 == |t.levels[0]| ==> m + |Ids(t.ns, t.levels[0][i])| == |Contents(t.ns, t.levels)|
  {
    hide *;
    LeafAtLevel(t, i, m);
    LeafRecord(t, root, fields, docs, i);
    var m' := LeafStart(t, i);
    OnePlace(t, i, m, m');
  }

  /** prev leads to the leaf before. */
  lemma {:induction false} PrevLeaf(t: Shape, root: Option<NodeId>, fields: seq<SortField>, docs: Docs, i: nat, m: nat)
    requires Tree(t, root) && Keyed(t, fields, docs, {}) && LeafAt(t, i, m)
    ensures t.levels[0][i] in t.ns && t.ns[t.levels[0][i]].Leaf? && t.ns[t.levels[0][i]].ids != []
    ensures t.ns[t.levels[0][i]].prev == At(t.levels[0], i - 1)
    ensures i > 0 ==> m >= |Ids(t.ns, t.levels[0][i - 1])| && Ids(t.ns, t.levels[0][i - 1]) != []
    ensures i > 0 ==> LeafAt(t, i - 1, m - |Ids(t.ns, t.levels[0][i - 1])|)
    ensures i == 0 ==> m == 0
  {
    hide *;
    LeafAtLevel(t, i, m);
    LeafRecord(t, root, fields, docs, i);
    if i > 0 {
      LeafRecord(t, root, fields, docs, i - 1);
      var m' := LeafStart(t, i - 1);
      OnePlace(t, i, m, m' + |Ids(t.ns, t.levels[0][i - 1])|);
    } else {
      var m' := LeafStart(t, i);
      OnePlace(t, i, m, m');
    }
  }

  // ----- keeping documents sorted

  lemma {:induction false} SortedFrame(fields: seq<SortField>, docs: Docs, docs': Docs, c: seq<DocId>)
    requires Sorted(fields, docs, c)
    requires forall i {:trigger c[i]} :: 0 <= i < |c| ==>
      c[i] in docs' && KeyOf(fields, docs', c[i]) == KeyOf(fields, docs, c[i])
    ensures Sorted(fields, docs', c)
  {
    forall i, j ensures Precedes(fields, docs', c, i, j) { assert Precedes(fields, docs, c, i, j); }
  }

  lemma {:induction false} KeyedFrame(t: Shape, fields: seq<SortField>, docs: Docs, docs': Docs)
    requires Keyed(t, fields, docs, {})
    requires forall i {:trigger Contents(t.ns, t.levels)[i]} :: 0 <= i < |Contents(t.ns, t.levels)| ==>
      KeyOf(fields, docs', Contents(t.ns, t.levels)[i]) == KeyOf(fields, docs, Contents(t.ns, t.levels)[i])
    ensures Keyed(t, fields, docs', {})
  {
    forall u | OnLevel(t, 0, u) ensures LeafFirst(t.ns, t.first, fields, docs', u) {
      var i :| 0 <= i < |t.levels[0]| && t.levels[0][i] == u;
      var m := LeafStart(t, i);
      LeafBegins(t, fields, docs, i, m);
      assert LeafFirst(t.ns, t.first, fields, docs, u);
      assert Ids(t.ns, u)[0] == Contents(t.ns, t.levels)[m + 0];
    }
  }

  lemma {:induction false} SortedWithout(fields: seq<SortField>, docs: Docs, c: seq<DocId>, p: nat)
    requires Sorted(fields, docs, c) && p < |c|
    ensures Sorted(fields, docs, c[..p] + c[p + 1..])
  {
    var c' := c[..p] + c[p + 1..];
    forall i | 0 <= i < |c'| ensures c'[i] == c[if i < p then i else i + 1] {}
    forall i, j ensures Precedes(fields, docs, c', i, j) {
      assert Precedes(fields, docs, c, if i < p then i else i + 1, if j < p then j else j + 1);
    }
  }

  lemma {:induction false} SortedWith(fields: seq<SortField>, docs: Docs, c: seq<DocId>, p: nat, key: DocId)
    requires Sorted(fields, docs, c) && p <= |c| && key in docs && Full(KeyOf(fields, docs, key))
    requires forall j {:trigger CompAt(fields, docs, KeyOf(fields, docs, key), c, j, false)} :: 0 <= j < |c| ==>
      CompAt(fields, docs, KeyOf(fields, docs, key), c, j, false) == if j < p then -1 else 1
    ensures Sorted(fields, docs, c[..p] + [key] + c[p..])
  {
    var c' := c[..p] + [key] + c[p..];
    forall i | 0 <= i < |c'| ensures c'[i] == if i < p then c[i] else if i == p then key else c[i - 1] {}
    var b := KeyOf(fields, docs, key);
    forall i, j ensures Precedes(fields, docs, c', i, j) {
      if 0 <= i < j < |c'| {
        assert Precedes(fields, docs, c, if i < p then i else i - 1, if j < p then j else j - 1);
        if j == p {
          assert CompAt(fields, docs, b, c, i, false) == -1;
          CompIsTotalOrder(fields, b, KeyOf(fields, docs, c[i]), b, false);
        }
        if i == p { assert CompAt(fields, docs, b, c, j - 1, false) == 1; }
      }
    }
  }

  /** Sorted documents are distinct. */
  lemma {:induction false} SortedDistinct(fields: seq<SortField>, docs: Docs, c: seq<DocId>)
    requires Sorted(fields, docs, c)
    ensures NoDup(c)
  {
    forall i, j | i < j ensures Differ(c, i, c, j) {
      assert Precedes(fields, docs, c, i, j);
      if 0 <= i < j < |c| {
        CompIsTotalOrder(fields, KeyOf(fields, docs, c[i]), KeyOf(fields, docs, c[j]), KeyOf(fields, docs, c[j]),
            false);
      }
    }
  }

  // ----- a new smallest document

  /** Going up the left edge, every smallest key follows. */
  lemma {:induction false} Climb(t: Shape, root: Option<NodeId>, F: Firsts, d: nat, n: NodeId) returns (t': Shape)
    requires Half(t, root, F, d, n) && t.levels[d][0] == n
    ensures Tree(t', root) && t'.ns == t.ns && t'.levels == t.levels && t'.height == t.height
    ensures forall u {:trigger SameFirst(t.first, t'.first, u)} :: u in t.levels[0] ==> SameFirst(t.first, t'.first, u)
    decreases |t.levels| - d
  {
    assert LevelAt(t, 0);
    if d + 1 == |t.levels| {
      RepairTop(t, root, F, d, n);
      t' := t;
    } else {
      var q := LeftEdge(t, root, F, d, n);
      RepairUp(t, root, F, d, n, q);
      var t1 := t.(first := t.first[q := t.first[n]]);
      t' := Climb(t1, root, F, d + 1, q);
      assert LevelAt(t, d + 1) && InPlace(t.ns, t.first, t.height, d + 1, q);
      forall u | u in t.levels[0] ensures SameFirst(t.first, t'.first, u) {
        assert SameFirst(t1.first, t'.first, u) && u != q;
      }
    }
  }

  lemma {:induction false} LeftEdge(t: Shape, root: Option<NodeId>, F: Firsts, d: nat, n: NodeId) returns (q: NodeId)
    requires Half(t, root, F, d, n) && t.levels[d][0] == n && d + 1 < |t.levels|
    ensures t.levels[d + 1] != [] && q == t.levels[d + 1][0] && n in t.ns && t.ns[n].parent == Some(q)
    ensures IndexOf(n, Kids(t.ns, q)) == 0
  {
    var tF := t.(first := F);
    assert JoinedAt(tF, d) && LevelAt(t, d) && LevelAt(t, d + 1);
    HalfOldLevel(t, root, F, d, n, d);
    var up := t.levels[d + 1];
    q := up[0];
    assert Exact(t.ns, F, q) && Adopted(t.ns, q);
    GatherAround(KidRow(t.ns), up, 0);
    assert up[..0] == [];
    assert Kids(t.ns, q)[0] == n && n in Kids(t.ns, q);
  }

  // ----- a document enters a leaf

  /** ids with key put before position k. */
  function Inserted(ids: seq<DocId>, k: nat, key: DocId): seq<DocId>
    requires k <= |ids|
  {
    ids[..k] + [key] + ids[k..]
  }

  /** A document put in a second time, wherever it is put, leaves no list an index can have. */
  lemma {:induction false} ListedTwice(fields: seq<SortField>, docs: Docs, ids: seq<DocId>, k: nat, key: DocId)
    requires key in ids && k <= |ids|
    ensures !Sorted(fields, docs, Inserted(ids, k, key))
  {
    var c := Inserted(ids, k, key);
    var j :| 0 <= j < |ids| && ids[j] == key;
    var i := if j < k then j else j + 1;
    assert c[i] == key == c[k] && i != k;
    assert !Differ(c, if i < k then i else k, c, if i < k then k else i);
    if Sorted(fields, docs, c) { SortedDistinct(fields, docs, c); }
  }

  /** k is where key belongs in leaf i. */
  ghost predicate BelongsAt(fields: seq<SortField>, docs: Docs, key: DocId, ids: seq<DocId>, k: nat)
  {
    && k <= |ids|
    && (forall j {:trigger ids[j]} :: 0 <= j < k ==>
      Comp(fields, KeyOf(fields, docs, key), KeyOf(fields, docs, ids[j]), false) < 0)
    && (k < |ids| ==> Comp(fields, KeyOf(fields, docs, key), KeyOf(fields, docs, ids[k]), false) >= 0)
  }

  lemma {:induction false} NeverEqual(fields: seq<SortField>, docs: Docs, key: DocId, c: seq<DocId>, p: nat)
    requires EndsWithId(fields) && key !in c && p < |c|
    ensures CompAt(fields, docs, KeyOf(fields, docs, key), c, p, false) == 1 || CompAt(fields, docs,
      KeyOf(fields, docs, key), c, p, false) == -1
  {
    var b := KeyOf(fields, docs, key);
    CompIsTotalOrder(fields, b, KeyOf(fields, docs, c[p]), b, false);
    if b == KeyOf(fields, docs, c[p]) { KeysDiffer(fields, docs, key, c[p]); }
  }

  /** ids stand in c from position m on, and key belongs at k among them. */
  lemma {:induction false} PlaceInLeaf(fields: seq<SortField>, docs: Docs, key: DocId, c: seq<DocId>, ids: seq<DocId>,
      m: nat, k: nat, p: nat)
    requires Sorted(fields, docs, c) && EndsWithId(fields) && key !in c
    requires m + |ids| <= |c| && forall j {:trigger ids[j]} :: 0 <= j < |ids| ==> c[m + j] == ids[j]
    requires BelongsAt(fields, docs, key, ids, k) && m <= p < m + |ids|
    ensures CompAt(fields, docs, KeyOf(fields, docs, key), c, p, false) == if p < m + k then -1 else 1
  {
    NeverEqual(fields, docs, key, c, p);
    if p < m + k {
      assert ids[p - m] == c[p];
    } else {
      assert ids[k] == c[m + k];
      if p > m + k { CompMonotone(fields, docs, KeyOf(fields, docs, key), c, m + k, p, false); }
    }
  }

  lemma {:induction false} PlaceInContents(t: Shape, root: Option<NodeId>, fields: seq<SortField>, docs: Docs,
      key: DocId, i: nat, k: nat) returns (m: nat)
    requires Tree(t, root) && Keyed(t, fields, docs, {}) && Sorted(fields, docs, Contents(t.ns, t.levels))
    requires EndsWithId(fields)
    requires key !in Contents(t.ns, t.levels)
    requires Between(t, fields, KeyOf(fields, docs, key), false, 0, i)
    requires BelongsAt(fields, docs, key, Ids(t.ns, t.levels[0][i]), k)
    ensures LeafAt(t, i, m) && m + k <= |Contents(t.ns, t.levels)|
    ensures i > 0 ==> k > 0
    ensures forall p {:trigger CompAt(fields, docs, KeyOf(fields, docs, key), Contents(t.ns, t.levels), p, false)} ::
      0 <= p < |Contents(t.ns, t.levels)| ==>
          CompAt(fields, docs, KeyOf(fields, docs, key), Contents(t.ns, t.levels), p, false) == if p < m + k then -1
              else 1
  {
    var b, c := KeyOf(fields, docs, key), Contents(t.ns, t.levels);
    m := AroundLeaf(t, root, fields, docs, b, false, i);
    var ids := Ids(t.ns, t.levels[0][i]);
    forall p | 0 <= p < |c| ensures CompAt(fields, docs, b, c, p, false) == if p < m + k then -1 else 1 {
      if m <= p < m + |ids| { PlaceInLeaf(fields, docs, key, c, ids, m, k, p); }
    }
    if i > 0 {
      assert ids[0] == c[m + 0];
      assert CompAt(fields, docs, b, c, m, false) <= 0;
      PlaceInLeaf(fields, docs, key, c, ids, m, k, m);
    }
  }

  lemma {:induction false} InsertedInside(a: seq<DocId>, ids: seq<DocId>, b: seq<DocId>, k: nat, key: DocId)
    requires k <= |ids|
    ensures a + Inserted(ids, k, key) + b == Inserted(a + ids + b, |a| + k, key)
  {
    assert (a + ids + b)[..|a| + k] == a + ids[..k];
    assert (a + ids + b)[|a| + k..] == ids[k..] + b;
  }

  lemma {:induction false} EditedSized(t: Shape, t': Shape, root: Option<NodeId>, lo: nat, hi: nat, u: NodeId)
    requires Sized(t, root, lo, hi, {}) && LeafEdited(t.ns, t'.ns, u) && t'.levels == t.levels
    ensures Sized(t', root, lo, hi, {u})
  {
    forall e: nat, v | e < |t'.levels| && v in t'.levels[e] && v !in {u} ensures SizeOk(t'.ns, root, lo, hi, v) {
      assert v in t.levels[e] && SizeOk(t.ns, root, lo, hi, v) && v in t'.ns;
    }
  }

  /** Every leaf but u keeps its documents and smallest key. */
  lemma {:induction false} EditedKeyed(t: Shape, t': Shape, fields: seq<SortField>, docs: Docs, u: NodeId)
    requires Keyed(t, fields, docs, {}) && LeafEdited(t.ns, t'.ns, u) && t'.levels == t.levels
    requires forall v {:trigger SameFirst(t.first, t'.first, v)} :: OnLevel(t, 0, v) && v != u ==>
      SameFirst(t.first, t'.first, v)
    ensures Keyed(t', fields, docs, {u})
  {
    forall v | OnLevel(t', 0, v) && v !in {u} ensures LeafFirst(t'.ns, t'.first, fields, docs, v) {
      assert OnLevel(t, 0, v) && LeafFirst(t.ns, t.first, fields, docs, v) && v in t'.ns
        && SameFirst(t.first, t'.first, v);
    }
  }

  /** A leaf got a new first document, which is the smallest of all: the keys follow. */
  lemma {:induction false} NewSmallest(t: Shape, root: Option<NodeId>, fields: seq<SortField>, docs: Docs, u: NodeId)
      returns (t': Shape)
    requires Tree(t, root) && Keyed(t, fields, docs, {u}) && t.levels != [] && t.levels[0] != [] && t.levels[0][0] == u
    requires Ids(t.ns, u) != []
    ensures Tree(t', root) && t'.ns == t.ns && t'.levels == t.levels && t'.height == t.height
    ensures Keyed(t', fields, docs, {})
  {
    assert LevelAt(t, 0) && InPlace(t.ns, t.first, t.height, 0, u);
    var key := KeyOf(fields, docs, t.ns[u].ids[0]);
    HalfStarts(t, root, u, key);
    var t1 := t.(first := t.first[u := key]);
    t' := Climb(t1, root, t.first, 0, u);
    forall v | OnLevel(t', 0, v) ensures LeafFirst(t'.ns, t'.first, fields, docs, v) {
      assert OnLevel(t, 0, v) && SameFirst(t1.first, t'.first, v);
      assert v != u ==> LeafFirst(t.ns, t.first, fields, docs, v);
    }
  }

  /** Leaf u holds key as its k-th document, the other records are as before. */
  ghost predicate LeafGains(ns: Nodes, ns': Nodes, u: NodeId, k: nat, key: DocId)
  {
    u in ns && ns[u].Leaf? && k <= |ns[u].ids| && ns' == ns[u := ns[u].(ids := Inserted(ns[u].ids, k, key))]
  }

  lemma {:induction false} GainedContents(t: Shape, root: Option<NodeId>, i: nat, m: nat, k: nat, key: DocId,
      ns': Nodes)
    requires Tree(t, root) && LeafAt(t, i, m) && LeafGains(t.ns, ns', t.levels[0][i], k, key)
    ensures m + k <= |Contents(t.ns, t.levels)|
    ensures Contents(ns', t.levels) == Inserted(Contents(t.ns, t.levels), m + k, key)
  {
    LeafEdit(t, root, i, ns');
    LeafContents(t.ns, t.levels[0], i);
    InsertedInside(Gather(IdRow(t.ns), t.levels[0][..i]), Ids(t.ns, t.levels[0][i]),
        Gather(IdRow(t.ns), t.levels[0][i + 1..]), k, key);
  }

  /** key takes its place in the sorted documents. */
  lemma {:induction false} LeafInsertOrder(t: Shape, root: Option<NodeId>, fields: seq<SortField>, docs: Docs,
      key: DocId, i: nat, k: nat, ns': Nodes) returns (p: nat)
    requires Tree(t, root) && Keyed(t, fields, docs, {}) && Sorted(fields, docs, Contents(t.ns, t.levels))
    requires EndsWithId(fields)
    requires key !in Contents(t.ns, t.levels) && key in docs && Full(KeyOf(fields, docs, key))
    requires Between(t, fields, KeyOf(fields, docs, key), false, 0, i)
    requires BelongsAt(fields, docs, key, Ids(t.ns, t.levels[0][i]), k)
    requires LeafGains(t.ns, ns', t.levels[0][i], k, key)
    ensures p <= |Contents(t.ns, t.levels)| && Contents(ns', t.levels) == Inserted(Contents(t.ns, t.levels), p, key)
    ensures Sorted(fields, docs, Contents(ns', t.levels)) && (i > 0 ==> k > 0)
  {
    var m := PlaceInContents(t, root, fields, docs, key, i, k);
    p := m + k;
    GainedContents(t, root, i, m, k, key, ns');
    SortedWith(fields, docs, Contents(t.ns, t.levels), p, key);
  }

  lemma {:induction false} LeafInsertKeys(t: Shape, root: Option<NodeId>, fields: seq<SortField>, docs: Docs,
      key: DocId, i: nat, k: nat, ns': Nodes) returns (t': Shape)
    requires Tree(t, root) && Keyed(t, fields, docs, {}) && t.levels != [] && i < |t.levels[0]|
    requires LeafGains(t.ns, ns', t.levels[0][i], k, key) && (i > 0 ==> k > 0)
    ensures t'.ns == ns' && Tree(t', root) && t'.levels == t.levels && t'.height == t.height
    ensures Keyed(t', fields, docs, {})
  {
    var u := t.levels[0][i];
    LeafEdit(t, root, i, ns');
    var t1 := t.(ns := ns');
    assert LevelAt(t, 0);
    forall v | OnLevel(t, 0, v) && v != u ensures SameFirst(t.first, t1.first, v) {
      assert LeafFirst(t.ns, t.first, fields, docs, v);
    }
    EditedKeyed(t, t1, fields, docs, u);
    if i == 0 {
      t' := NewSmallest(t1, root, fields, docs, u);
    } else {
      t' := t1;
      assert OnLevel(t, 0, u) && LeafFirst(t.ns, t.first, fields, docs, u);
      assert Inserted(t.ns[u].ids, k, key)[0] == t.ns[u].ids[0];
      forall v | OnLevel(t', 0, v) ensures LeafFirst(t'.ns, t'.first, fields, docs, v) {
        assert v == u || LeafFirst(t1.ns, t1.first, fields, docs, v);
      }
    }
  }

  /** Leaf i takes in key where it belongs. */
  lemma {:induction false} LeafInsert(t: Shape, root: Option<NodeId>, count: int, lo: nat, hi: nat,
      fields: seq<SortField>, docs: Docs,
      key: DocId, i: nat, k: nat, ns': Nodes) returns (t': Shape)
    requires Sane(t, root, count, lo, hi, fields, docs, {}) && t.levels != [] && i < |t.levels[0]|
    requires LeafGains(t.ns, ns', t.levels[0][i], k, key) && (i > 0 ==> k > 0)
    ensures t'.ns == ns' && t'.levels == t.levels && Sane(t', root, count, lo, hi, fields, docs, {t.levels[0][i]})
  {
    var u := t.levels[0][i];
    t' := LeafInsertKeys(t, root, fields, docs, key, i, k, ns');
    assert OnLevel(t, 0, u);
    EditedSized(t, t', root, lo, hi, u);
  }

  /** A document changes that is not in the index. */
  lemma {:induction false} OtherDocument(t: Shape, root: Option<NodeId>, count: int, lo: nat, hi: nat,
      fields: seq<SortField>, docs: Docs,
      docs': Docs, key: DocId)
    requires Sane(t, root, count, lo, hi, fields, docs, {}) && Sorted(fields, docs, Contents(t.ns, t.levels))
    requires key !in Contents(t.ns, t.levels) && docs' - {key} == docs - {key}
    ensures Sane(t, root, count, lo, hi, fields, docs', {}) && Sorted(fields, docs', Contents(t.ns, t.levels))
  {
    var c := Contents(t.ns, t.levels);
    forall i | 0 <= i < |c| ensures c[i] in docs' && KeyOf(fields, docs', c[i]) == KeyOf(fields, docs, c[i]) {
      assert c[i] in docs - {key} && c[i] in docs' - {key};
      assert (docs - {key})[c[i]] == (docs' - {key})[c[i]];
    }
    KeyedFrame(t, fields, docs, docs');
    SortedFrame(fields, docs, docs', c);
  }

  // ----- the first leaf

  ghost function FirstLeaf(t: Shape, x: NodeId, key: DocId, first: SortKey): Shape
  {
    Shape(t.ns[x := Leaf([key], None, None, None)], [[x]], t.first[x := first], t.height[x := 0])
  }

  lemma {:induction false} FirstLeafIsSane(t: Shape, count: int, lo: nat, hi: nat, fields: seq<SortField>, docs: Docs,
      key: DocId)
    requires Sane(t, None, count, lo, hi, fields, docs, {}) && hi >= 1 && key in docs && Full(KeyOf(fields, docs, key))
    ensures var t' := FirstLeaf(t, count + 1, key, KeyOf(fields, docs, key));
      && Sane(t', Some(count + 1), count + 1, lo, hi, fields, docs, {})
      && Contents(t'.ns, t'.levels) == [key] && Sorted(fields, docs, [key])
  {
    var x := count + 1;
    var t' := FirstLeaf(t, x, key, KeyOf(fields, docs, key));
    GatherOne(IdRow(t'.ns), x);
    forall d: nat ensures LevelAt(t', d) {
      assert d == 0 ==> Placed(t'.ns, t'.first, t'.height, 0, [x]);
    }
    forall u | u in t'.ns && t'.ns[u].Leaf? ensures OnLevel(t', 0, u) {
      assert u != x ==> u in t.ns;
    }
  }
}
