/** What a range query means: the documents within its bounds, in index order or the
    reverse, up to its limit; and how the comparisons of the code decide membership. */
module Ranges {
  import opened Lists
  import opened SortOrder
  import opened Layout
  import opened TreeInvariant
  import opened LeafOrder
  import opened Descent

  /** Bounds give values for some of the sort fields; a limit above 1000 counts as 1000. */
  datatype RangeOpt = RangeOpt(startAt: Option<SortKey>, startAfter: Option<SortKey>, endAt: Option<SortKey>,
      endBefore: Option<SortKey>,
                               limit: Option<int>, reverse: bool)

  predicate Fits(fields: seq<SortField>, bound: Option<SortKey>)
  {
    bound.Some? ==> |bound.value.parts| == |fields|
  }

  predicate FitsAll(fields: seq<SortField>, opt: RangeOpt)
  {
    Fits(fields, opt.startAt) && Fits(fields, opt.startAfter) && Fits(fields, opt.endAt) && Fits(fields, opt.endBefore)
  }

  function LimitOf(opt: RangeOpt): int
  {
    if opt.limit.None? || opt.limit.value > 1000 then 1000 else opt.limit.value
  }

  /** x lies on the right side of the start bound. */
  predicate Starts(fields: seq<SortField>, opt: RangeOpt, x: SortKey)
    requires FitsAll(fields, opt) && |x.parts| == |fields|
  {
    if opt.startAt.Some? then
      if opt.reverse then Against(fields, opt.startAt.value, x, 0) <= 0
          else Against(fields, opt.startAt.value, x, 0) >= 0
    else if opt.startAfter.Some? then
      if opt.reverse then Against(fields, opt.startAfter.value, x, 0) < 0
          else Against(fields, opt.startAfter.value, x, 0) > 0
    else true
  }

  /** x lies on the right side of the end bound. */
  predicate Ends(fields: seq<SortField>, opt: RangeOpt, x: SortKey)
    requires FitsAll(fields, opt) && |x.parts| == |fields|
  {
    if opt.endAt.Some? then
      if opt.reverse then Against(fields, opt.endAt.value, x, 0) >= 0 else Against(fields, opt.endAt.value, x, 0) <= 0
    else if opt.endBefore.Some? then
      if opt.reverse then Against(fields, opt.endBefore.value, x, 0) > 0
          else Against(fields, opt.endBefore.value, x, 0) < 0
    else true
  }

  predicate Inside(fields: seq<SortField>, docs: Docs, opt: RangeOpt, id: DocId)
    requires FitsAll(fields, opt)
  {
    Starts(fields, opt, KeyOf(fields, docs, id)) && Ends(fields, opt, KeyOf(fields, docs, id))
  }

  /** The documents within the bounds, in the order given. */
  function Select(fields: seq<SortField>, docs: Docs, opt: RangeOpt, ids: seq<DocId>): seq<DocId>
    requires FitsAll(fields, opt)
  {
    if ids == [] then []
    else (if Inside(fields, docs, opt, ids[0]) then [ids[0]] else []) + Select(fields, docs, opt, ids[1..])
  }

  function Reversed<T>(xs: seq<T>): (r: seq<T>)
    ensures |r| == |xs|
    ensures forall i {:trigger r[i]} :: 0 <= i < |r| ==> r[i] == xs[|xs| - 1 - i]
  {
    if xs == [] then [] else Reversed(xs[1..]) + [xs[0]]
  }

  /** A limit of zero or less is never reached, so it does not limit. */
  function Limited<T>(limit: int, xs: seq<T>): seq<T>
  {
    if 1 <= limit <= |xs| then xs[..limit] else xs
  }

  /** The answer to a range query over the documents c of an index. */
  function Answer(fields: seq<SortField>, docs: Docs, opt: RangeOpt, c: seq<DocId>): seq<DocId>
    requires FitsAll(fields, opt)
  {
    Limited(LimitOf(opt), Select(fields, docs, opt, if opt.reverse then Reversed(c) else c))
  }

  /** How much of what is within the bounds an answer has: a given limit above 1000, like
      none, counts as 1000, and one below 1 does not limit. */
  lemma {:induction false} AnswerSize(fields: seq<SortField>, docs: Docs, opt: RangeOpt, c: seq<DocId>)
    requires FitsAll(fields, opt)
    ensures
      var all, a := Select(fields, docs, opt, if opt.reverse then Reversed(c) else c), Answer(fields, docs, opt, c);
      && a <= all
      && (opt.limit.Some? && opt.limit.value < 1 ==> a == all)
      && (opt.limit.Some? && 1 <= opt.limit.value <= 1000 ==>
        |a| == if |all| < opt.limit.value then |all| else opt.limit.value)
      && (opt.limit.None? || opt.limit.value > 1000 ==> |a| == if |all| < 1000 then |all| else 1000)
  {
  }

  // ----- the stop tests

  /** The test that ends a scan at document key x. */
  predicate Stops(fields: seq<SortField>, opt: RangeOpt, x: SortKey)
  {
    if opt.endAt.Some? then
      if opt.reverse then Comp(fields, x, opt.endAt.value, false) > 0 else Comp(fields, x, opt.endAt.value, true) < 0
    else if opt.endBefore.Some? then
      if opt.reverse then Comp(fields, x, opt.endBefore.value, true) >= 0
          else Comp(fields, x, opt.endBefore.value, false) <= 0
    else false
  }

  /** How a bound with missing fields compares, read off both placements of missing fields. */
  lemma {:induction false} AgainstComp(fields: seq<SortField>, bound: SortKey, x: SortKey)
    requires |bound.parts| == |x.parts| == |fields| && Full(x)
    ensures Comp(fields, bound, x, true) == 1 <==> Against(fields, bound, x, 0) > 0
    ensures Comp(fields, bound, x, false) == -1 <==> Against(fields, bound, x, 0) < 0
    ensures Comp(fields, bound, x, true) == 0 ==>
      Against(fields, bound, x, 0) == 0 && Comp(fields, bound, x, false) == 0
    ensures Comp(fields, bound, x, false) == 0 ==>
      Against(fields, bound, x, 0) == 0 && Comp(fields, bound, x, true) == 0
    ensures Against(fields, bound, x, 0) == 1 ==> Comp(fields, bound, x, false) == 1
    ensures Against(fields, bound, x, 0) == -1 ==> Comp(fields, bound, x, true) == -1
  {
    BoundComp(fields, bound, x, true, 0);
    BoundComp(fields, bound, x, false, 0);
  }

  /** A scan stops exactly where the end bound excludes. */
  lemma {:induction false} StopsAtEnd(fields: seq<SortField>, opt: RangeOpt, x: SortKey)
    requires FitsAll(fields, opt) && |x.parts| == |fields| && Full(x)
    ensures Stops(fields, opt, x) <==> !Ends(fields, opt, x)
  {
    if opt.endAt.Some? {
      AgainstComp(fields, opt.endAt.value, x);
      CompFlipsFrom(fields, opt.endAt.value, x, true, 0);
      CompFlipsFrom(fields, opt.endAt.value, x, false, 0);
    } else if opt.endBefore.Some? {
      AgainstComp(fields, opt.endBefore.value, x);
      CompFlipsFrom(fields, opt.endBefore.value, x, true, 0);
      CompFlipsFrom(fields, opt.endBefore.value, x, false, 0);
    }
  }

  /** Documents further along stand further along against any bound. */
  lemma {:induction false} AgainstMonotone(fields: seq<SortField>, docs: Docs, bound: SortKey, c: seq<DocId>, p: nat,
      q: nat)
    requires Sorted(fields, docs, c) && |bound.parts| == |fields| && p < q < |c|
    ensures Against(fields, bound, KeyOf(fields, docs, c[p]), 0) <= Against(fields, bound, KeyOf(fields, docs, c[q]), 0)
  {
    AgainstSigns(fields, bound, KeyOf(fields, docs, c[p]), 0);
    AgainstSigns(fields, bound, KeyOf(fields, docs, c[q]), 0);
    AgainstComp(fields, bound, KeyOf(fields, docs, c[p]));
    AgainstComp(fields, bound, KeyOf(fields, docs, c[q]));
    CompMonotone(fields, docs, bound, c, p, q, true);
    CompMonotone(fields, docs, bound, c, p, q, false);
    assert CompAt(fields, docs, bound, c, p, true) == Comp(fields, bound, KeyOf(fields, docs, c[p]), true);
  }

  lemma {:induction false} AgainstSigns(fields: seq<SortField>, bound: SortKey, x: SortKey, i: nat)
    requires |bound.parts| == |x.parts| == |fields|
    ensures -1 <= Against(fields, bound, x, i) <= 1
    decreases |fields| - i
  {
    if i < |fields| && bound.parts[i].Some? && x.parts[i] == bound.parts[i] { AgainstSigns(fields, bound, x, i + 1); }
  }

  // ----- scanning

  /** What a forward scan from position p collects after vals. */
  function Scan(fields: seq<SortField>, docs: Docs, opt: RangeOpt, c: seq<DocId>, p: nat, vals: seq<DocId>): seq<DocId>
    decreases |c| - p
  {
    if p >= |c| || Stops(fields, opt, KeyOf(fields, docs, c[p])) then vals
    else if |vals| + 1 == LimitOf(opt) then vals + [c[p]]
    else Scan(fields, docs, opt, c, p + 1, vals + [c[p]])
  }

  /** What a backward scan collects that has p documents left to look at. */
  function ScanBack(fields: seq<SortField>, docs: Docs, opt: RangeOpt, c: seq<DocId>, p: nat,
      vals: seq<DocId>): seq<DocId>
    requires p <= |c|
  {
    if p == 0 || Stops(fields, opt, KeyOf(fields, docs, c[p - 1])) then vals
    else if |vals| + 1 == LimitOf(opt) then vals + [c[p - 1]]
    else ScanBack(fields, docs, opt, c, p - 1, vals + [c[p - 1]])
  }

  lemma {:induction false} ScanEnds(fields: seq<SortField>, docs: Docs, opt: RangeOpt, c: seq<DocId>, p: nat,
      vals: seq<DocId>)
    ensures p >= |c| ==> Scan(fields, docs, opt, c, p, vals) == vals
    ensures p == 0 ==> ScanBack(fields, docs, opt, c, p, vals) == vals
  {
  }

  /** Scanning backwards is scanning the reversed documents. */
  lemma {:induction false} ScanBackIsScan(fields: seq<SortField>, docs: Docs, opt: RangeOpt, c: seq<DocId>, p: nat,
      vals: seq<DocId>)
    requires p <= |c|
    ensures ScanBack(fields, docs, opt, c, p, vals) == Scan(fields, docs, opt, Reversed(c), |c| - p, vals)
    decreases p
  {
    if p > 0 {
      assert Reversed(c)[|c| - p] == c[p - 1];
      ScanBackIsScan(fields, docs, opt, c, p - 1, vals + [c[p - 1]]);
    }
  }

  /** Further along, a document that the end bound excludes is followed by others it excludes. */
  ghost predicate EndsEarly(fields: seq<SortField>, docs: Docs, opt: RangeOpt, c: seq<DocId>, p: nat)
    requires FitsAll(fields, opt)
  {
    forall q, r {:trigger Out(fields, docs, opt, c, q), Out(fields, docs, opt, c, r)} ::
      p <= q < r < |c| && Out(fields, docs, opt, c, q) ==> Out(fields, docs, opt, c, r)
  }

  ghost predicate Out(fields: seq<SortField>, docs: Docs, opt: RangeOpt, c: seq<DocId>, q: int)
    requires FitsAll(fields, opt)
  {
    0 <= q < |c| && !Ends(fields, opt, KeyOf(fields, docs, c[q]))
  }

  /** From a point on where the start bound excludes nothing any more, the scan collects
      what the bounds select, until the limit is reached. */
  lemma {:induction false} ScanSelects(fields: seq<SortField>, docs: Docs, opt: RangeOpt, c: seq<DocId>, p: nat,
      vals: seq<DocId>)
    requires FitsAll(fields, opt) && p <= |c| && EndsEarly(fields, docs, opt, c, p)
    requires forall q {:trigger c[q]} :: p <= q < |c| ==>
      Full(KeyOf(fields, docs, c[q])) && Starts(fields, opt, KeyOf(fields, docs, c[q]))
    requires LimitOf(opt) >= 1 ==> |vals| < LimitOf(opt)
    ensures Scan(fields, docs, opt, c, p, vals) == Limited(LimitOf(opt), vals + Select(fields, docs, opt, c[p..]))
    decreases |c| - p
  {
    if p < |c| {
      StopsAtEnd(fields, opt, KeyOf(fields, docs, c[p]));
      assert c[p..][0] == c[p] && c[p..][1..] == c[p + 1..];
      var rest := Select(fields, docs, opt, c[p + 1..]);
      if Stops(fields, opt, KeyOf(fields, docs, c[p])) {
        assert Out(fields, docs, opt, c, p);
        forall i | 0 <= i < |c[p..]| ensures !Inside(fields, docs, opt, c[p..][i]) {
          assert c[p..][i] == c[p + i] && (i > 0 ==> Out(fields, docs, opt, c, p + i));
        }
        SelectNone(fields, docs, opt, c[p..]);
      } else {
        assert Inside(fields, docs, opt, c[p]);
        assert vals + ([c[p]] + rest) == vals + [c[p]] + rest;
        if |vals| + 1 != LimitOf(opt) { ScanSelects(fields, docs, opt, c, p + 1, vals + [c[p]]); }
      }
    }
  }

  lemma {:induction false} SelectNone(fields: seq<SortField>, docs: Docs, opt: RangeOpt, ids: seq<DocId>)
    requires FitsAll(fields, opt) && forall i {:trigger ids[i]} :: 0 <= i < |ids| ==> !Inside(fields, docs, opt, ids[i])
    ensures Select(fields, docs, opt, ids) == []
  {
    if ids != [] {
      assert !Inside(fields, docs, opt, ids[0]);
      SelectNone(fields, docs, opt, ids[1..]);
    }
  }

  lemma {:induction false} SelectConcat(fields: seq<SortField>, docs: Docs, opt: RangeOpt, a: seq<DocId>, b: seq<DocId>)
    requires FitsAll(fields, opt)
    ensures Select(fields, docs, opt, a + b) == Select(fields, docs, opt, a) + Select(fields, docs, opt, b)
  {
    if a == [] {
      assert a + b == b;
    } else {
      assert (a + b)[1..] == a[1..] + b;
      SelectConcat(fields, docs, opt, a[1..], b);
    }
  }

  /** Position p is where the scan of c, already in scan order, has to begin. */
  ghost predicate BeginsAt(fields: seq<SortField>, docs: Docs, opt: RangeOpt, c: seq<DocId>, p: nat)
    requires FitsAll(fields, opt)
  {
    && p <= |c|
    && forall q {:trigger c[q]} :: 0 <= q < |c| ==> (Starts(fields, opt, KeyOf(fields, docs, c[q])) <==> p <= q)
  }

  /** Exactly the first p documents are past the start of a backward scan. */
  ghost predicate StopsAfter(fields: seq<SortField>, docs: Docs, opt: RangeOpt, c: seq<DocId>, p: nat)
    requires FitsAll(fields, opt)
  {
    forall q {:trigger c[q]} :: 0 <= q < |c| ==> (Starts(fields, opt, KeyOf(fields, docs, c[q])) <==> q < p)
  }

  /** The scan from the right place gives the answer. */
  lemma {:induction false} ScanAnswers(fields: seq<SortField>, docs: Docs, opt: RangeOpt, c: seq<DocId>, p: nat)
    requires FitsAll(fields, opt) && BeginsAt(fields, docs, opt, c, p) && EndsEarly(fields, docs, opt, c, p)
    requires forall q {:trigger c[q]} :: 0 <= q < |c| ==> Full(KeyOf(fields, docs, c[q]))
    ensures Scan(fields, docs, opt, c, p, []) == Limited(LimitOf(opt), Select(fields, docs, opt, c))
  {
    ScanSelects(fields, docs, opt, c, p, []);
    assert c == c[..p] + c[p..];
    SelectConcat(fields, docs, opt, c[..p], c[p..]);
    forall i | 0 <= i < |c[..p]| ensures !Inside(fields, docs, opt, c[..p][i]) { assert c[..p][i] == c[i]; }
    SelectNone(fields, docs, opt, c[..p]);
    assert [] + Select(fields, docs, opt, c[p..]) == Select(fields, docs, opt, c[p..]);
  }

  lemma {:induction false} EndsEarlyForward(fields: seq<SortField>, docs: Docs, opt: RangeOpt, c: seq<DocId>, p: nat)
    requires FitsAll(fields, opt) && Sorted(fields, docs, c) && !opt.reverse
    ensures EndsEarly(fields, docs, opt, c, p)
  {
    forall q, r | p <= q < r < |c| && Out(fields, docs, opt, c, q) ensures Out(fields, docs, opt, c, r) {
      if opt.endAt.Some? { AgainstMonotone(fields, docs, opt.endAt.value, c, q, r); }
      else if opt.endBefore.Some? { AgainstMonotone(fields, docs, opt.endBefore.value, c, q, r); }
    }
  }

  lemma {:induction false} EndsEarlyReverse(fields: seq<SortField>, docs: Docs, opt: RangeOpt, c: seq<DocId>, p: nat)
    requires FitsAll(fields, opt) && Sorted(fields, docs, c) && opt.reverse
    ensures EndsEarly(fields, docs, opt, Reversed(c), p)
  {
    var b := Reversed(c);
    forall q, r | p <= q < r < |b| && Out(fields, docs, opt, b, q) ensures Out(fields, docs, opt, b, r) {
      assert b[q] == c[|c| - 1 - q] && b[r] == c[|c| - 1 - r];
      if opt.endAt.Some? { AgainstMonotone(fields, docs, opt.endAt.value, c, |c| - 1 - r, |c| - 1 - q); }
      else if opt.endBefore.Some? { AgainstMonotone(fields, docs, opt.endBefore.value, c, |c| - 1 - r, |c| - 1 - q); }
    }
  }

  /** Forward: from position p on every document is past the start. */
  lemma {:induction false} AnswerForward(fields: seq<SortField>, docs: Docs, opt: RangeOpt, c: seq<DocId>, p: nat)
    requires FitsAll(fields, opt) && Sorted(fields, docs, c) && !opt.reverse && BeginsAt(fields, docs, opt, c, p)
    ensures Scan(fields, docs, opt, c, p, []) == Answer(fields, docs, opt, c)
  {
    EndsEarlyForward(fields, docs, opt, c, p);
    ScanAnswers(fields, docs, opt, c, p);
  }

  /** Backward: exactly the first p documents are past the start. */
  lemma {:induction false} AnswerBackward(fields: seq<SortField>, docs: Docs, opt: RangeOpt, c: seq<DocId>, p: nat)
    requires FitsAll(fields, opt) && Sorted(fields, docs, c) && opt.reverse && p <= |c|
    requires StopsAfter(fields, docs, opt, c, p)
    ensures ScanBack(fields, docs, opt, c, p, []) == Answer(fields, docs, opt, c)
  {
    var b := Reversed(c);
    forall q | 0 <= q < |b|
        ensures Full(KeyOf(fields, docs, b[q])) && (Starts(fields, opt, KeyOf(fields, docs, b[q])) <==> |c| - p <= q) {
      assert b[q] == c[|c| - 1 - q];
    }
    EndsEarlyReverse(fields, docs, opt, c, |c| - p);
    ScanAnswers(fields, docs, opt, b, |c| - p);
    ScanBackIsScan(fields, docs, opt, c, p, []);
  }

  // ----- where a bound falls among the documents

  /** Before a the bound lies after the documents, from b on before them; in between, if
      b is a + 1, it agrees with one. */
  ghost predicate Falls(fields: seq<SortField>, docs: Docs, bound: SortKey, c: seq<DocId>, nullLast: bool, a: nat,
      b: nat)
  {
    && a <= b <= |c| && b <= a + 1
    && forall q {:trigger CompAt(fields, docs, bound, c, q, nullLast)} :: 0 <= q < |c| ==>
         CompAt(fields, docs, bound, c, q, nullLast) == if q < a then -1 else if q < b then 0 else 1
  }

  /** What a binary search reports about a leaf, seen from the whole sequence. */
  ghost predicate Found(m: nat, n: nat, a: nat, b: nat, index: Option<nat>, smaller: Option<nat>, greater: Option<nat>)
  {
    && m <= a <= b <= m + n
    && (index.Some? ==> b == a + 1 && a == m + index.value && smaller.None? && greater.None?)
    && (index.None? ==>
      a == b && smaller == (if a > m then Some(a - m - 1) else None)
          && greater == (if a < m + n then Some(a - m) else None))
  }

  lemma {:induction false} FoundMeans(m: nat, n: nat, a: nat, b: nat, index: Option<nat>, smaller: Option<nat>,
      greater: Option<nat>)
    requires Found(m, n, a, b, index, smaller, greater)
    ensures m <= a <= b <= m + n
    ensures index.Some? ==> b == a + 1 && a == m + index.value && smaller.None? && greater.None?
    ensures index.None? ==> a == b
    ensures index.None? ==> smaller == if a > m then Some(a - m - 1) else None
    ensures index.None? ==> greater == if a < m + n then Some(a - m) else None
  {
  }

  lemma {:induction false} FallsMeans(fields: seq<SortField>, docs: Docs, bound: SortKey, c: seq<DocId>,
      nullLast: bool, a: nat, b: nat)
    requires Falls(fields, docs, bound, c, nullLast, a, b)
    ensures a <= b <= |c|
    ensures a > 0 ==> CompAt(fields, docs, bound, c, a - 1, nullLast) == -1
    ensures b < |c| ==> CompAt(fields, docs, bound, c, b, nullLast) == 1
    ensures forall p {:trigger CompAt(fields, docs, bound, c, p, nullLast)} :: 0 <= p < a ==>
      CompAt(fields, docs, bound, c, p, nullLast) == -1
  {
  }

  lemma {:induction false} CutAt(fields: seq<SortField>, docs: Docs, bound: SortKey, c: seq<DocId>, ids: seq<DocId>,
      m: nat, nullLast: bool, j: nat)
    requires Sorted(fields, docs, c) && |bound.parts| == |fields| && StandsAt(c, ids, m)
    requires j < |ids| && CompAt(fields, docs, bound, ids, j, nullLast) == 0
    ensures Falls(fields, docs, bound, c, nullLast, m + j, m + j + 1)
  {
    assert ids[j] == c[m + j];
    forall q | 0 <= q < |c|
      ensures CompAt(fields, docs, bound, c, q, nullLast) == if q < m + j then -1 else if q < m + j + 1 then 0 else 1 {
      if q < m + j { CompMonotone(fields, docs, bound, c, q, m + j, nullLast); }
      if q > m + j { CompMonotone(fields, docs, bound, c, m + j, q, nullLast); }
    }
  }

  /** Outside ids, which stand at m, the bound is after everything before and before everything after. */
  ghost predicate Outside(fields: seq<SortField>, docs: Docs, bound: SortKey, c: seq<DocId>, ids: seq<DocId>, m: nat,
      nullLast: bool)
  {
    && (forall p {:trigger CompAt(fields, docs, bound, c, p, nullLast)} :: 0 <= p < m ==>
      CompAt(fields, docs, bound, c, p, nullLast) == -1)
    && (forall p {:trigger CompAt(fields, docs, bound, c, p, nullLast)} :: m + |ids| <= p < |c| ==>
      CompAt(fields, docs, bound, c, p, nullLast) == 1)
  }

  lemma {:induction false} CutBetween(fields: seq<SortField>, docs: Docs, bound: SortKey, c: seq<DocId>,
      ids: seq<DocId>, m: nat, nullLast: bool, k: nat)
    requires StandsAt(c, ids, m) && k <= |ids|
    requires forall p {:trigger CompAt(fields, docs, bound, ids, p, nullLast)} :: 0 <= p < |ids| ==>
      CompAt(fields, docs, bound, ids, p, nullLast) == if p < k then -1 else 1
    requires Outside(fields, docs, bound, c, ids, m, nullLast)
    ensures Falls(fields, docs, bound, c, nullLast, m + k, m + k)
  {
    forall q | 0 <= q < |c|
      ensures CompAt(fields, docs, bound, c, q, nullLast) == if q < m + k then -1 else 1 {
      if m <= q < m + |ids| {
        assert ids[q - m] == c[q];
        assert CompAt(fields, docs, bound, c, q, nullLast) == CompAt(fields, docs, bound, ids, q - m, nullLast);
      }
    }
  }

  lemma {:induction false} ProbeLeaf(t: Shape, root: Option<NodeId>, fields: seq<SortField>, docs: Docs,
      bound: SortKey, nullLast: bool, i: nat) returns (m: nat)
    requires Tree(t, root) && Keyed(t, fields, docs, {}) && Sorted(fields, docs, Contents(t.ns, t.levels))
    requires |bound.parts| == |fields|
    requires Between(t, fields, bound, nullLast, 0, i)
    ensures LeafAt(t, i, m) && t.levels[0][i] in t.ns && t.ns[t.levels[0][i]].Leaf? && t.ns[t.levels[0][i]].ids != []
    ensures Sorted(fields, docs, Ids(t.ns, t.levels[0][i]))
    ensures StandsAt(Contents(t.ns, t.levels), Ids(t.ns, t.levels[0][i]), m)
    ensures Outside(fields, docs, bound, Contents(t.ns, t.levels), Ids(t.ns, t.levels[0][i]), m, nullLast)
    ensures i > 0 ==> CompAt(fields, docs, bound, Contents(t.ns, t.levels), m, nullLast) <= 0
  {
    m := AroundLeaf(t, root, fields, docs, bound, nullLast, i);
    NextLeaf(t, root, fields, docs, i, m);
    SortedStretch(fields, docs, Contents(t.ns, t.levels), Ids(t.ns, t.levels[0][i]), m);
  }

  /** A document beyond the bound with missing fields last is beyond it either way. */
  lemma {:induction false} BeyondEitherWay(fields: seq<SortField>, docs: Docs, bound: SortKey, c: seq<DocId>, p: int)
    requires Sorted(fields, docs, c) && |bound.parts| == |fields| && 0 <= p < |c|
    ensures CompAt(fields, docs, bound, c, p, true) == 1 ==> CompAt(fields, docs, bound, c, p, false) == 1
    ensures CompAt(fields, docs, bound, c, p, false) == -1 ==> CompAt(fields, docs, bound, c, p, true) == -1
  {
    AgainstSigns(fields, bound, KeyOf(fields, docs, c[p]), 0);
    AgainstComp(fields, bound, KeyOf(fields, docs, c[p]));
  }

  /** Which documents a start bound admits, in terms of where it falls. */
  lemma {:induction false} StartsFrom(fields: seq<SortField>, docs: Docs, opt: RangeOpt, bound: SortKey, after: bool,
      c: seq<DocId>, a: nat, b: nat)
    requires FitsAll(fields, opt) && Sorted(fields, docs, c) && |bound.parts| == |fields|
    requires if after then opt.startAt.None? && opt.startAfter == Some(bound) else opt.startAt == Some(bound)
    requires Falls(fields, docs, bound, c, if opt.reverse then !after else after, a, b)
    ensures forall q {:trigger c[q]} :: 0 <= q < |c| ==>
      (Starts(fields, opt, KeyOf(fields, docs, c[q])) <==>
         if opt.reverse then q < (if after then a else b) else q >= (if after then b else a))
  {
    forall q | 0 <= q < |c|
      ensures Starts(fields, opt, KeyOf(fields, docs, c[q])) <==>
         if opt.reverse then q < (if after then a else b) else q >= (if after then b else a) {
      var nl := if opt.reverse then !after else after;
      assert CompAt(fields, docs, bound, c, q, nl) == if q < a then -1 else if q < b then 0 else 1;
      AgainstComp(fields, bound, KeyOf(fields, docs, c[q]));
      AgainstSigns(fields, bound, KeyOf(fields, docs, c[q]), 0);
    }
  }
}
