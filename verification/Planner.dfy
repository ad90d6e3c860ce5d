/** Answering a query from an index: what its bounds select, in either direction. */
module Planner {
  import opened Lists
  import opened SortOrder
  import opened TreeInvariant
  import opened LeafOrder
  import opened Ranges
  import opened Bpt
  import opened Indexer
  import opened Parser

  // ----- what a query asks for

  predicate Holds(c: Cond, w: Scalar)
  {
    match c.cmp
    case Lt => ScalarLess(w, c.value)
    case Le => w == c.value || ScalarLess(w, c.value)
    case Gt => ScalarLess(c.value, w)
    case Ge => w == c.value || ScalarLess(c.value, w)
    case Ne => w != c.value
  }

  /** Every document has the id field. */
  predicate HasField(doc: Doc, f: string)
  {
    f == ID_FIELD || f in doc
  }

  function FieldOf(id: DocId, doc: Doc, f: string): Scalar
    requires HasField(doc, f)
  {
    if f == ID_FIELD then Text(id) else doc[f]
  }

  predicate HasEqual(id: DocId, doc: Doc, e: Eq)
  {
    HasField(doc, e.field) && FieldOf(id, doc, e.field) == e.value
  }

  predicate HasInRange(id: DocId, doc: Doc, c: Cond)
  {
    HasField(doc, c.field) && Holds(c, FieldOf(id, doc, c.field))
  }

  predicate Satisfies(id: DocId, doc: Doc, q: Query)
  {
    && (forall i {:trigger q.equals[i]} :: 0 <= i < |q.equals| ==> HasEqual(id, doc, q.equals[i]))
    && (forall i {:trigger q.range[i]} :: 0 <= i < |q.range| ==> HasInRange(id, doc, q.range[i]))
  }

  /** The listed documents that satisfy the query, in the order listed. */
  function Matching(docs: Docs, q: Query, ids: seq<DocId>): seq<DocId>
  {
    if ids == [] then []
    else (if ids[0] in docs && Satisfies(ids[0], docs[ids[0]], q) then [ids[0]] else []) + Matching(docs, q, ids[1..])
  }

  // ----- where a document stands against bounds on its leading fields

  /** How a document's value stands to a bound's in the order of the field. */
  function Side(f: SortField, v: Scalar, w: Scalar): int
  {
    if v == w then 0 else if (if f.desc then ScalarLess(v, w) else ScalarLess(w, v)) then -1 else 1
  }

  lemma {:induction false} AgainstStep(fields: seq<SortField>, m: Doc, id: DocId, doc: Doc, i: nat)
    requires i < |fields| && (fields[i].name in m ==> HasField(doc, fields[i].name))
    ensures Against(fields, Pick(fields, None, m), Pick(fields, Some(id), doc), i) ==
      if fields[i].name !in m then 0
      else if m[fields[i].name] == FieldOf(id, doc, fields[i].name) then
          Against(fields, Pick(fields, None, m), Pick(fields, Some(id), doc), i + 1)
      else Side(fields[i], m[fields[i].name], FieldOf(id, doc, fields[i].name))
  {
    var b, x := Pick(fields, None, m), Pick(fields, Some(id), doc);
    assert b.parts[i] == FieldValue(fields[i], None, m) && x.parts[i] == FieldValue(fields[i], Some(id), doc);
  }

  /** A document that has every value of a bound stands at it. */
  lemma {:induction false} AllAgree(fields: seq<SortField>, m: Doc, id: DocId, doc: Doc, i: nat)
    requires forall f {:trigger f in m} :: f in m ==> HasEqual(id, doc, Eq(f, m[f]))
    ensures Against(fields, Pick(fields, None, m), Pick(fields, Some(id), doc), i) == 0
    decreases |fields| - i
  {
    if i < |fields| {
      assert fields[i].name in m ==> HasEqual(id, doc, Eq(fields[i].name, m[fields[i].name]));
      AgainstStep(fields, m, id, doc, i);
      AllAgree(fields, m, id, doc, i + 1);
    }
  }

  /** The document has a value for every equality. */
  ghost predicate HasAll(doc: Doc, equals: seq<Eq>)
  {
    forall k {:trigger equals[k]} :: 0 <= k < |equals| ==> HasField(doc, equals[k].field)
  }

  /** The first equality a document violates, from the i-th on, and on which side. */
  ghost function EqSide(equals: seq<Eq>, id: DocId, doc: Doc, i: nat): int
    requires HasAll(doc, equals)
    decreases |equals| - i
  {
    if i >= |equals| then 0
    else if FieldOf(id, doc, equals[i].field) == equals[i].value then EqSide(equals, id, doc, i + 1)
    else Side(SortField(equals[i].field, false), equals[i].value, FieldOf(id, doc, equals[i].field))
  }

  lemma {:induction false} EqSideZero(equals: seq<Eq>, id: DocId, doc: Doc, i: nat)
    requires HasAll(doc, equals)
    ensures EqSide(equals, id, doc, i) == 0 <==> forall k {:trigger equals[k]} :: i <= k < |equals| ==>
      HasEqual(id, doc, equals[k])
    ensures -1 <= EqSide(equals, id, doc, i) <= 1
    decreases |equals| - i
  {
    if i < |equals| && FieldOf(id, doc, equals[i].field) == equals[i].value { EqSideZero(equals, id, doc, i + 1); }
  }

  /** m gives the values of the equalities, and the index sorts by their fields first. */
  ghost predicate Leads(fields: seq<SortField>, equals: seq<Eq>, m: Doc)
  {
    && |equals| <= |fields|
    && forall k {:trigger equals[k]} :: 0 <= k < |equals| ==>
         fields[k] == SortField(equals[k].field, false) && equals[k].field in m && m[equals[k].field] == equals[k].value
  }

  lemma {:induction false} AgainstEquals(fields: seq<SortField>, equals: seq<Eq>, m: Doc, id: DocId, doc: Doc, i: nat)
    requires Leads(fields, equals, m) && i <= |equals| && HasAll(doc, equals)
    ensures Against(fields, Pick(fields, None, m), Pick(fields, Some(id), doc), i) ==
      if EqSide(equals, id, doc, i) != 0 then EqSide(equals, id, doc, i)
      else Against(fields, Pick(fields, None, m), Pick(fields, Some(id), doc), |equals|)
    decreases |equals| - i
  {
    if i < |equals| {
      assert fields[i].name == equals[i].field && HasField(doc, equals[i].field);
      AgainstStep(fields, m, id, doc, i);
      EqSideZero(equals, id, doc, i);
      AgainstEquals(fields, equals, m, id, doc, i + 1);
    }
  }

  ghost predicate Different(equals: seq<Eq>)
  {
    forall i, j {:trigger equals[i], equals[j]} :: 0 <= i < j < |equals| ==> equals[i].field != equals[j].field
  }

  lemma {:induction false} EqMapIs(equals: seq<Eq>)
    requires Different(equals)
    ensures forall k {:trigger equals[k]} :: 0 <= k < |equals| ==>
      equals[k].field in EqMap(equals) && EqMap(equals)[equals[k].field] == equals[k].value
    ensures forall f {:trigger f in EqMap(equals)} :: f in EqMap(equals) ==> IsEqual(equals, f)
  {
    if equals != [] {
      var n := |equals| - 1;
      EqMapIs(equals[..n]);
      forall k | 0 <= k < n
          ensures equals[k].field in EqMap(equals) && EqMap(equals)[equals[k].field] == equals[k].value {
        assert equals[..n][k] == equals[k] && equals[k].field != equals[n].field;
      }
      forall f | f in EqMap(equals) ensures IsEqual(equals, f) {
        if f != equals[n].field {
          assert f in EqMap(equals[..n]);
          var k :| 0 <= k < n && equals[..n][k].field == f;
          assert equals[k].field == f;
        } else {
          assert equals[n].field == f;
        }
      }
    }
  }

  /** A document that has the equal values stands at the bound they make. */
  lemma {:induction false} EqualsAgree(equals: seq<Eq>, id: DocId, doc: Doc, f: string)
    requires Different(equals) && HasAll(doc, equals) && EqSide(equals, id, doc, 0) == 0 && f in EqMap(equals)
    ensures HasEqual(id, doc, Eq(f, EqMap(equals)[f]))
  {
    EqMapIs(equals);
    EqSideZero(equals, id, doc, 0);
    var k :| 0 <= k < |equals| && equals[k].field == f;
    assert HasEqual(id, doc, equals[k]);
  }

  /** A bound on the equalities alone tells only where a document differs from them. */
  lemma {:induction false} AgainstEqualities(fields: seq<SortField>, equals: seq<Eq>, id: DocId, doc: Doc)
    requires Suits(fields, equals) && HasAll(doc, equals)
    ensures Against(fields, Pick(fields, None, EqMap(equals)), Pick(fields, Some(id), doc), 0) == EqSide(equals, id,
      doc, 0)
  {
    AgainstEquals(fields, equals, EqMap(equals), id, doc, 0);
    EqSideZero(equals, id, doc, 0);
    if EqSide(equals, id, doc, 0) == 0 {
      forall f | f in EqMap(equals) ensures HasEqual(id, doc, Eq(f, EqMap(equals)[f])) {
        EqualsAgree(equals, id, doc, f);
      }
      AllAgree(fields, EqMap(equals), id, doc, |equals|);
    }
  }

  /** With one more field, that field decides among documents with the equal values. */
  lemma {:induction false} AgainstOneMore(fields: seq<SortField>, equals: seq<Eq>, f: string, v: Scalar, id: DocId,
      doc: Doc)
    requires SuitsMore(fields, equals, f) && HasField(doc, f) && HasAll(doc, equals)
    ensures Against(fields, Pick(fields, None, EqMap(equals)[f := v]), Pick(fields, Some(id), doc), 0) ==
      if EqSide(equals, id, doc, 0) != 0 then EqSide(equals, id, doc, 0)
          else Side(fields[|equals|], v, FieldOf(id, doc, f))
  {
    var m, e := EqMap(equals)[f := v], |equals|;
    forall k | 0 <= k < e ensures equals[k].field in m && m[equals[k].field] == equals[k].value {
      assert IsEqual(equals, equals[k].field);
    }
    AgainstEquals(fields, equals, m, id, doc, 0);
    EqSideZero(equals, id, doc, 0);
    if EqSide(equals, id, doc, 0) == 0 {
      AgainstStep(fields, m, id, doc, e);
      if FieldOf(id, doc, f) == v {
        forall g | g in m ensures HasEqual(id, doc, Eq(g, m[g])) { if g != f { EqualsAgree(equals, id, doc, g); } }
        AllAgree(fields, m, id, doc, e + 1);
      }
    }
  }

  // ----- bounds

  datatype Edge = Open | At(inclusive: bool, value: Scalar)

  /** The bound that equalities make, with an edge on one more field if there is one. */
  function EdgeBound(equals: seq<Eq>, f: string, e: Edge): Option<Bound>
  {
    if e.At? then Some(Bound(e.inclusive, EqMap(equals)[f := e.value]))
    else if equals == [] then None
    else Some(Bound(true, EqMap(equals)))
  }

  function Standing(fields: seq<SortField>, b: Bound, x: SortKey): int
    requires |x.parts| == |fields|
  {
    Against(fields, Pick(fields, None, b.vals), x, 0)
  }

  predicate FromStart(fields: seq<SortField>, start: Option<Bound>, x: SortKey)
    requires |x.parts| == |fields|
  {
    start.Some? ==>
        if start.value.inclusive then Standing(fields, start.value, x) >= 0 else Standing(fields, start.value, x) > 0
  }

  predicate ToEnd(fields: seq<SortField>, end: Option<Bound>, x: SortKey)
    requires |x.parts| == |fields|
  {
    end.Some? ==> if end.value.inclusive then Standing(fields, end.value, x) <= 0
        else Standing(fields, end.value, x) < 0
  }

  /** The index sorts by the equality fields, and then by f. */
  ghost predicate Suits(fields: seq<SortField>, equals: seq<Eq>)
  {
    Leads(fields, equals, EqMap(equals)) && Different(equals)
  }

  ghost predicate SuitsMore(fields: seq<SortField>, equals: seq<Eq>, f: string)
  {
    Suits(fields, equals) && |equals| < |fields| && fields[|equals|].name == f && !IsEqual(equals, f)
  }

  predicate AboveEdge(f: SortField, lo: Edge, w: Scalar)
  {
    lo.At? ==> if lo.inclusive then Side(f, lo.value, w) >= 0 else Side(f, lo.value, w) > 0
  }

  predicate BelowEdge(f: SortField, hi: Edge, w: Scalar)
  {
    hi.At? ==> if hi.inclusive then Side(f, hi.value, w) <= 0 else Side(f, hi.value, w) < 0
  }

  /** Between two bounds lie the documents with the equal values whose next field is
      between the edges. */
  lemma {:induction false} BetweenEdges(fields: seq<SortField>, equals: seq<Eq>, f: string, lo: Edge, hi: Edge,
      id: DocId, doc: Doc)
    requires Suits(fields, equals) && HasAll(doc, equals)
    requires lo.At? || hi.At? ==> SuitsMore(fields, equals, f) && HasField(doc, f)
    ensures
      FromStart(fields, EdgeBound(equals, f, lo), Pick(fields, Some(id), doc))
          && ToEnd(fields, EdgeBound(equals, f, hi), Pick(fields, Some(id), doc)) <==>
      && EqSide(equals, id, doc, 0) == 0
      && (lo.At? ==> AboveEdge(fields[|equals|], lo, FieldOf(id, doc, f)))
      && (hi.At? ==> BelowEdge(fields[|equals|], hi, FieldOf(id, doc, f)))
  {
    EqSideZero(equals, id, doc, 0);
    AgainstEqualities(fields, equals, id, doc);
    if lo.At? { AgainstOneMore(fields, equals, f, lo.value, id, doc); }
    if hi.At? { AgainstOneMore(fields, equals, f, hi.value, id, doc); }
  }

  // ----- the conditions of a query as edges

  function LowEdge(range: seq<Cond>): Edge
  {
    if range == [] then Open
    else if Lower(range[|range| - 1].cmp) then At(range[|range| - 1].cmp.Ge?, range[|range| - 1].value)
    else LowEdge(range[..|range| - 1])
  }

  function HighEdge(range: seq<Cond>): Edge
  {
    if range == [] then Open
    else if Upper(range[|range| - 1].cmp) then At(range[|range| - 1].cmp.Le?, range[|range| - 1].value)
    else HighEdge(range[..|range| - 1])
  }

  /** At most one bound from each side, all on the field f. */
  ghost predicate OneEach(range: seq<Cond>, f: string)
  {
    && OnField(range, f)
    && forall i, j {:trigger range[i], range[j]} :: 0 <= i < j < |range| ==>
         !(Lower(range[i].cmp) && Lower(range[j].cmp)) && !(Upper(range[i].cmp) && Upper(range[j].cmp))
  }

  lemma {:induction false} EdgesOf(equals: seq<Eq>, range: seq<Cond>, f: string)
    requires OneEach(range, f)
    ensures StartOf(equals, range) == EdgeBound(equals, f, LowEdge(range))
    ensures EndOf(equals, range) == EdgeBound(equals, f, HighEdge(range))
    ensures LowEdge(range).At? <==> AnyLower(range)
    ensures HighEdge(range).At? <==> AnyUpper(range)
  {
    if range != [] {
      var n := |range| - 1;
      EdgesOf(equals, range[..n], f);
      NextCond(range, n);
      assert range[..n + 1] == range && range[n].field == f;
      if Lower(range[n].cmp) { NoneBefore(range, n); }
      if Upper(range[n].cmp) { NoneBefore(range, n); }
    }
  }

  lemma {:induction false} NoneBefore(range: seq<Cond>, n: nat)
    requires n == |range| - 1
    requires forall i {:trigger range[i]} :: 0 <= i < n ==>
      !(Lower(range[i].cmp) && Lower(range[n].cmp)) && !(Upper(range[i].cmp) && Upper(range[n].cmp))
    ensures Lower(range[n].cmp) ==> !AnyLower(range[..n])
    ensures Upper(range[n].cmp) ==> !AnyUpper(range[..n])
  {
    forall i | 0 <= i < n ensures range[..n][i] == range[i] {}
  }

  /** A condition in terms of the order of its field. */
  predicate Meets(f: SortField, c: Cond, w: Scalar)
  {
    match c.cmp
    case Lt => Side(f, c.value, w) < 0
    case Le => Side(f, c.value, w) <= 0
    case Gt => Side(f, c.value, w) > 0
    case Ge => Side(f, c.value, w) >= 0
    case Ne => Side(f, c.value, w) != 0
  }

  lemma {:induction false} MeetsEdges(range: seq<Cond>, f: SortField, w: Scalar)
    requires OneEach(range, f.name) && forall i {:trigger range[i]} :: 0 <= i < |range| ==> !range[i].cmp.Ne?
    ensures AboveEdge(f, LowEdge(range), w) && BelowEdge(f, HighEdge(range), w) <==>
      forall i {:trigger range[i]} :: 0 <= i < |range| ==> Meets(f, range[i], w)
  {
    if range != [] {
      var n := |range| - 1;
      var front := range[..n];
      assert forall i {:trigger front[i]} :: 0 <= i < n ==> front[i] == range[i];
      MeetsEdges(front, f, w);
      NoneBefore(range, n);
      EdgesOf([], front, f.name);
      assert (forall i {:trigger range[i]} :: 0 <= i < |range| ==> Meets(f, range[i], w)) <==>
             (forall i {:trigger front[i]} :: 0 <= i < n ==> Meets(f, front[i], w)) && Meets(f, range[n], w);
    }
  }

  /** On an ascending field this is the condition itself. */
  lemma {:induction false} MeetsHolds(f: SortField, c: Cond, w: Scalar)
    requires !f.desc || c.cmp.Ne?
    ensures Meets(f, c, w) <==> Holds(c, w)
  {
    ScalarTotal(c.value, w);
    ScalarTotal(w, c.value);
  }

  // ----- a query's bounds select what satisfies it

  ghost predicate Ready(fields: seq<SortField>, q: Query)
  {
    && WellFormed(q) && Suits(fields, q.equals)
    && (q.range != [] ==> SuitsMore(fields, q.equals, q.range[0].field))
  }

  ghost predicate Carries(doc: Doc, q: Query)
  {
    HasAll(doc, q.equals) && (q.range != [] ==> HasField(doc, q.range[0].field))
  }

  ghost predicate Ranged(q: Query)
  {
    q.range == [] || !q.range[0].cmp.Ne?
  }

  /** The document lies between the bounds of the query. */
  ghost predicate Bounded(fields: seq<SortField>, q: Query, id: DocId, doc: Doc)
  {
    && FromStart(fields, StartOf(q.equals, q.range), Pick(fields, Some(id), doc))
    && ToEnd(fields, EndOf(q.equals, q.range), Pick(fields, Some(id), doc))
  }

  /** Every condition is met in the order of the field f. */
  ghost predicate AllMet(f: SortField, range: seq<Cond>, w: Scalar)
  {
    forall i {:trigger range[i]} :: 0 <= i < |range| ==> Meets(f, range[i], w)
  }

  lemma {:induction false} RangedOneEach(q: Query)
    requires WellFormed(q) && q.range != [] && Ranged(q)
    ensures OneEach(q.range, q.range[0].field)
    ensures forall i {:trigger q.range[i]} :: 0 <= i < |q.range| ==> !q.range[i].cmp.Ne?
  {
  }

  /** In terms of the order of the index, whatever the direction of the conditions' field. */
  lemma {:induction false} OneMeets(fields: seq<SortField>, q: Query, id: DocId, doc: Doc)
    requires Ready(fields, q) && Carries(doc, q) && Ranged(q)
    ensures Bounded(fields, q, id, doc) <==>
      && EqSide(q.equals, id, doc, 0) == 0
      && (q.range != [] ==> AllMet(fields[|q.equals|], q.range, FieldOf(id, doc, q.range[0].field)))
  {
    if q.range == [] {
      BetweenEdges(fields, q.equals, "", Open, Open, id, doc);
    } else {
      var f := q.range[0].field;
      RangedOneEach(q);
      EdgesOf(q.equals, q.range, f);
      BetweenEdges(fields, q.equals, f, LowEdge(q.range), HighEdge(q.range), id, doc);
      MeetsEdges(q.range, fields[|q.equals|], FieldOf(id, doc, f));
    }
  }

  /** One range selects exactly the documents that satisfy the query, if the field of the
      conditions is ascending. */
  lemma {:induction false} OneSelects(fields: seq<SortField>, q: Query, id: DocId, doc: Doc)
    requires Ready(fields, q) && Carries(doc, q) && Ranged(q) && (q.range != [] ==> !fields[|q.equals|].desc)
    ensures Bounded(fields, q, id, doc) <==> Satisfies(id, doc, q)
  {
    OneMeets(fields, q, id, doc);
    EqSideZero(q.equals, id, doc, 0);
    if q.range != [] {
      var w := FieldOf(id, doc, q.range[0].field);
      forall i | 0 <= i < |q.range|
        ensures Meets(fields[|q.equals|], q.range[i], w) <==> HasInRange(id, doc, q.range[i])
      {
        MeetsHolds(fields[|q.equals|], q.range[i], w);
        assert q.range[i].field == q.range[0].field;
      }
    }
  }

  /** The document lies below, or above, the excluded value of a !=. */
  ghost predicate Under(fields: seq<SortField>, q: Query, id: DocId, doc: Doc)
    requires q.range != []
  {
    && FromStart(fields, EdgeBound(q.equals, q.range[0].field, Open), Pick(fields, Some(id), doc))
    && ToEnd(fields, EdgeBound(q.equals, q.range[0].field, At(false, q.range[0].value)), Pick(fields, Some(id), doc))
  }

  ghost predicate Over(fields: seq<SortField>, q: Query, id: DocId, doc: Doc)
    requires q.range != []
  {
    && FromStart(fields, EdgeBound(q.equals, q.range[0].field, At(false, q.range[0].value)),
      Pick(fields, Some(id), doc))
    && ToEnd(fields, EdgeBound(q.equals, q.range[0].field, Open), Pick(fields, Some(id), doc))
  }

  /** Where a document stands to the excluded value. */
  ghost function Aside(fields: seq<SortField>, q: Query, id: DocId, doc: Doc): int
    requires q.range != []
  {
    Standing(fields, Bound(false, EqMap(q.equals)[q.range[0].field := q.range[0].value]), Pick(fields, Some(id), doc))
  }

  /** The two ranges of a != select the documents before and after the excluded value. */
  lemma {:induction false} TwoSelect(fields: seq<SortField>, q: Query, id: DocId, doc: Doc)
    requires Ready(fields, q) && Carries(doc, q) && q.range != [] && q.range[0].cmp.Ne?
    ensures Satisfies(id, doc, q) <==> Under(fields, q, id, doc) || Over(fields, q, id, doc)
    ensures Under(fields, q, id, doc) ==> Aside(fields, q, id, doc) < 0
    ensures Over(fields, q, id, doc) ==> Aside(fields, q, id, doc) > 0
  {
    var f, v := q.range[0].field, q.range[0].value;
    BetweenEdges(fields, q.equals, f, Open, At(false, v), id, doc);
    BetweenEdges(fields, q.equals, f, At(false, v), Open, id, doc);
    AgainstOneMore(fields, q.equals, f, v, id, doc);
    NotEqual(q, id, doc);
  }

  lemma {:induction false} NotEqual(q: Query, id: DocId, doc: Doc)
    requires WellFormed(q) && Carries(doc, q) && q.range != [] && q.range[0].cmp.Ne?
    ensures Satisfies(id, doc, q) <==>
      EqSide(q.equals, id, doc, 0) == 0 && FieldOf(id, doc, q.range[0].field) != q.range[0].value
  {
    EqSideZero(q.equals, id, doc, 0);
    assert |q.range| == 1
      && (HasInRange(id, doc, q.range[0]) <==> FieldOf(id, doc, q.range[0].field) != q.range[0].value);
  }

  // ----- the options of the range

  function KeyOfBound(fields: seq<SortField>, b: Option<Bound>, inclusive: bool): (k: Option<SortKey>)
    ensures k.Some? ==> |k.value.parts| == |fields|
  {
    if b.Some? && b.value.inclusive == inclusive then Some(Pick(fields, None, b.value.vals)) else None
  }

  function OptOf(fields: seq<SortField>, l: Limits, limit: int, reverse: bool): (o: RangeOpt)
    ensures FitsAll(fields, o)
  {
    RangeOpt(KeyOfBound(fields, l.start, true), KeyOfBound(fields, l.start, false), KeyOfBound(fields, l.end, true),
        KeyOfBound(fields, l.end, false),
             Some(limit), reverse)
  }

  /** For a scan in reverse the bounds that conditions made change places. */
  method ModOpt(fields: seq<SortField>, opt: RangeOpt, revStart: bool, revEnd: bool) returns (o: RangeOpt)
    requires FitsAll(fields, opt)
    ensures o == Swapped(opt, revStart, revEnd) && FitsAll(fields, o)
  {
    o := opt;
    if opt.reverse {
      var startAt, startAfter, endAt, endBefore: Option<SortKey> := None, None, None, None;
      if revStart {
        if o.startAt.Some? {
          endAt := o.startAt;
          o := o.(startAt := None);
        } else if o.startAfter.Some? {
          endBefore := o.startAfter;
          o := o.(startAfter := None);
        }
      }
      if revEnd {
        if o.endAt.Some? {
          startAt := o.endAt;
          o := o.(endAt := None);
        } else if o.endBefore.Some? {
          startAfter := o.endBefore;
          o := o.(endBefore := None);
        }
      }
      if startAt.Some? { o := o.(startAt := startAt); }
      if startAfter.Some? { o := o.(startAfter := startAfter); }
      if endAt.Some? { o := o.(endAt := endAt); }
      if endBefore.Some? { o := o.(endBefore := endBefore); }
    }
  }

  function Swapped(opt: RangeOpt, revStart: bool, revEnd: bool): RangeOpt
  {
    if !opt.reverse then opt
    else
      var sa, sb := revStart && opt.startAt.Some?, revStart && opt.startAt.None? && opt.startAfter.Some?;
      var ea, eb := revEnd && opt.endAt.Some?, revEnd && opt.endAt.None? && opt.endBefore.Some?;
      opt.(startAt := if ea then opt.endAt else if sa then None else opt.startAt,
           startAfter := if eb then opt.endBefore else if sb then None else opt.startAfter,
           endAt := if sa then opt.startAt else if ea then None else opt.endAt,
           endBefore := if sb then opt.startAfter else if eb then None else opt.endBefore)
  }

  /** Either way the same documents are inside. */
  lemma {:induction false} SameInside(fields: seq<SortField>, docs: Docs, l: Limits, limit: int, reverse: bool,
      id: DocId)
    requires reverse ==> (l.start.Some? ==> l.revStart) && (l.end.Some? ==> l.revEnd)
    requires id in docs && FitsAll(fields, Swapped(OptOf(fields, l, limit, reverse), l.revStart, l.revEnd))
    ensures Inside(fields, docs, Swapped(OptOf(fields, l, limit, reverse), l.revStart, l.revEnd), id) <==>
      FromStart(fields, l.start, Pick(fields, Some(id), docs[id]))
          && ToEnd(fields, l.end, Pick(fields, Some(id), docs[id]))
  {
    assert KeyOf(fields, docs, id) == Pick(fields, Some(id), docs[id]);
  }

  // ----- lists of answers

  lemma {:induction false} SelectIsMatching(fields: seq<SortField>, docs: Docs, opt: RangeOpt, q: Query,
      ids: seq<DocId>)
    requires FitsAll(fields, opt)
    requires forall i {:trigger ids[i]} :: 0 <= i < |ids| ==>
      (Inside(fields, docs, opt, ids[i]) <==> ids[i] in docs && Satisfies(ids[i], docs[ids[i]], q))
    ensures Select(fields, docs, opt, ids) == Matching(docs, q, ids)
  {
    if ids != [] {
      assert Inside(fields, docs, opt, ids[0]) <==> ids[0] in docs && Satisfies(ids[0], docs[ids[0]], q);
      SelectIsMatching(fields, docs, opt, q, ids[1..]);
    }
  }

  ghost predicate EitherWay(fields: seq<SortField>, docs: Docs, o1: RangeOpt, o2: RangeOpt, q: Query, id: DocId)
    requires FitsAll(fields, o1) && FitsAll(fields, o2)
  {
    Inside(fields, docs, o1, id) || Inside(fields, docs, o2, id) <==> id in docs && Satisfies(id, docs[id], q)
  }

  /** Two selections one after the other are one, if nothing of the first comes after
      anything of the second. */
  lemma {:induction false} SelectTwo(fields: seq<SortField>, docs: Docs, o1: RangeOpt, o2: RangeOpt, q: Query,
      ids: seq<DocId>)
    requires FitsAll(fields, o1) && FitsAll(fields, o2)
    requires forall i {:trigger ids[i]} :: 0 <= i < |ids| ==> EitherWay(fields, docs, o1, o2, q, ids[i])
    requires forall i, j {:trigger ids[i], ids[j]} :: 0 <= i <= j < |ids| && Inside(fields, docs, o2, ids[i]) ==>
      !Inside(fields, docs, o1, ids[j])
    ensures Select(fields, docs, o1, ids) + Select(fields, docs, o2, ids) == Matching(docs, q, ids)
  {
    hide Inside, Satisfies, FitsAll;
    if ids != [] {
      assert EitherWay(fields, docs, o1, o2, q, ids[0]);
      SelectTwo(fields, docs, o1, o2, q, ids[1..]);
      if Inside(fields, docs, o2, ids[0]) {
        forall j | 0 <= j < |ids| ensures !Inside(fields, docs, o1, ids[j]) { assert ids[0] == ids[0]; }
        SelectNone(fields, docs, o1, ids);
        SelectNone(fields, docs, o1, ids[1..]);
      }
    }
  }

  lemma {:induction false} LimitedTwice<T>(limit: int, a: seq<T>, b: seq<T>)
    requires limit >= 1
    ensures Limited(limit, a + b) == if |Limited(limit, a)| >= limit then Limited(limit, a)
      else Limited(limit, a) + Limited(limit - |Limited(limit, a)|, b)
  {
  }

  // ----- the planner

  function NameOf(sort: IndexName): IndexName
  {
    if sort == [] then [ID] else if Backwards(sort) then [SortField(sort[0].name, false)] else sort
  }

  /** A sole descending sort field is answered from the ascending index, backwards. */
  predicate Backwards(sort: IndexName)
  {
    |sort| == 1 && sort[0].desc
  }

  /** Every tree but those of one field has to be registered. */
  predicate Served(k: Indexer, sort: IndexName)
    reads k`indexes
  {
    |NameOf(sort)| <= 1 || NameOf(sort) in k.indexes
  }

  method RangeQuery(k: Indexer, sort: IndexName, l: Limits, limit: int) returns (r: Outcome<seq<DocId>>)
    requires k.Valid()
    modifies k`trees
    ensures k.Valid() && k.docs == old(k.docs) && forall n {:trigger k.Entries(n)} :: k.Entries(n) == old(k.Entries(n))
    ensures r.Ok? <==> |sort| <= 1 || sort in k.indexes
    ensures r.Ok? <==> Served(k, sort)
    ensures r.Ok? ==>
      var fields, o :=
          TreeFields(NameOf(sort)),
              Swapped(OptOf(TreeFields(NameOf(sort)), l, limit, Backwards(sort)), l.revStart, l.revEnd);
      FitsAll(fields, o) && r.value == Answer(fields, k.docs, o, k.Entries(NameOf(sort)))
  {
    var name := NameOf(sort);
    if !Served(k, sort) { return Err("missing index"); }
    var opt := ModOpt(TreeFields(name), OptOf(TreeFields(name), l, limit, Backwards(sort)), l.revStart, l.revEnd);
    var ids := k.Ask(name, opt);
    r := Ok(ids);
  }

  // ----- whole queries

  /** A list of ids, a refusal, or a cursor left without a position. */
  datatype Found = Ids(ids: seq<DocId>) | Failed(reason: string) | Lost

  /** What an index lists, in the order its sort order is answered. */
  function Ordered(sort: IndexName, c: seq<DocId>): seq<DocId>
  {
    if Backwards(sort) then Reversed(c) else c
  }

  function Opposite(c: Cmp): Cmp
  {
    match c
    case Lt => Gt
    case Le => Ge
    case Gt => Lt
    case Ge => Le
    case Ne => Ne
  }

  function OppositeAll(range: seq<Cond>): (r: seq<Cond>)
    ensures |r| == |range|
    ensures forall i {:trigger r[i]} :: 0 <= i < |r| ==> r[i] == range[i].(cmp := Opposite(range[i].cmp))
  {
    seq(|range|, i requires 0 <= i < |range| => range[i].(cmp := Opposite(range[i].cmp)))
  }

  /** The conditions are on a descending field of a composite index. */
  predicate Descends(q: Query)
  {
    q.range != [] && |IndexFor(q)| > 1 && IndexFor(q)[|q.equals|].desc
  }

  /** The query that is answered: on a descending field of a composite index every
      condition is taken for its opposite. */
  function Turned(q: Query): Query
  {
    if Descends(q) then q.(range := OppositeAll(q.range)) else q
  }

  /** Every listed document has all fields of the index. */
  ghost predicate AllHave(docs: Docs, n: IndexName, c: seq<DocId>)
  {
    forall x {:trigger x in c} :: x in c ==> Wants(docs, n, x)
  }

  /** A query that has an index. */
  ghost predicate Answerable(q: Query)
  {
    WellFormed(q) && Sortable(q) && OnOtherField(q)
  }

  /** The fields of the tree that answers the query. */
  function FieldsFor(q: Query): seq<SortField>
  {
    TreeFields(NameOf(IndexFor(q)))
  }

  /** The chosen index sorts by the equalities, then by the field of the conditions. */
  lemma {:induction false} IsReady(q: Query)
    requires Answerable(q)
    ensures Ready(FieldsFor(q), q)
    ensures Backwards(IndexFor(q)) ==> q.equals == []
    ensures q.range != [] ==> FieldsFor(q)[|q.equals|].desc == Descends(q)
  {
    var sort, e := IndexFor(q), |q.equals|;
    var n, fields := NameOf(sort), FieldsFor(q);
    assert forall k {:trigger q.equals[k]} :: 0 <= k < e ==> sort[k] == SortField(q.equals[k].field, false);
    if e > 0 { assert sort[0] == SortField(q.equals[0].field, false); }
    assert !Backwards(sort) && sort != [] ==> n == sort;
    assert forall k {:trigger fields[k]} :: 0 <= k < |n| ==> fields[k] == n[k];
    EqMapIs(q.equals);
    if q.range != [] {
      assert sort[e].name == q.range[0].field;
      assert q.equals == [] ==> !IsEqual(q.equals, q.range[0].field);
    }
  }

  lemma {:induction false} DoesCarry(q: Query, doc: Doc)
    requires Answerable(q) && Has(doc, NameOf(IndexFor(q)))
    ensures Carries(doc, q)
  {
    IsReady(q);
    var n, fields := NameOf(IndexFor(q)), FieldsFor(q);
    assert forall k {:trigger fields[k]} :: 0 <= k < |n| ==> fields[k] == n[k];
    forall k | 0 <= k < |q.equals| ensures HasField(doc, q.equals[k].field) { assert n[k].name == q.equals[k].field; }
    if q.range != [] { assert n[|q.equals|].name == q.range[0].field; }
  }

  /** A document lies between the bounds exactly if it satisfies the query answered. */
  lemma {:induction false} TurnedSelects(q: Query, id: DocId, doc: Doc)
    requires Answerable(q) && Ranged(q) && Has(doc, NameOf(IndexFor(q)))
    ensures Bounded(FieldsFor(q), q, id, doc) <==> Satisfies(id, doc, Turned(q))
  {
    IsReady(q);
    DoesCarry(q, doc);
    OneMeets(FieldsFor(q), q, id, doc);
    EqSideZero(q.equals, id, doc, 0);
    if q.range != [] { TurnedHolds(FieldsFor(q), q, id, doc); }
  }

  lemma {:induction false} TurnedHolds(fields: seq<SortField>, q: Query, id: DocId, doc: Doc)
    requires Ready(fields, q) && Carries(doc, q) && q.range != [] && fields[|q.equals|].desc == Descends(q)
    ensures AllMet(fields[|q.equals|], q.range, FieldOf(id, doc, q.range[0].field)) <==>
      forall i {:trigger Turned(q).range[i]} :: 0 <= i < |Turned(q).range| ==> HasInRange(id, doc, Turned(q).range[i])
  {
    var f, w, t := fields[|q.equals|], FieldOf(id, doc, q.range[0].field), Turned(q).range;
    forall i | 0 <= i < |q.range| ensures Meets(f, q.range[i], w) <==> HasInRange(id, doc, t[i]) {
      assert t[i].field == q.range[i].field == q.range[0].field;
      ScalarTotal(q.range[i].value, w);
      ScalarTotal(w, q.range[i].value);
    }
    assert forall i {:trigger t[i]} :: 0 <= i < |q.range| ==> (Meets(f, q.range[i], w) <==> HasInRange(id, doc, t[i]));
  }

  /** The options one range is asked with. */
  function AskedFor(sort: IndexName, l: Limits, limit: int): (o: RangeOpt)
    ensures FitsAll(TreeFields(NameOf(sort)), o)
  {
    Swapped(OptOf(TreeFields(NameOf(sort)), l, limit, Backwards(sort)), l.revStart, l.revEnd)
  }

  /** The document is inside one of the ranges of the query. */
  predicate Within(q: Query, docs: Docs, l: Limits, id: DocId)
  {
    Inside(FieldsFor(q), docs, AskedFor(IndexFor(q), l, 1000), id)
  }

  /** What the range selects, in the order given. */
  function Chosen(q: Query, docs: Docs, l: Limits, ids: seq<DocId>): seq<DocId>
  {
    Select(FieldsFor(q), docs, AskedFor(IndexFor(q), l, 1000), ids)
  }

  /** What the range is answered with. */
  function Reply(q: Query, docs: Docs, l: Limits, limit: int, c: seq<DocId>): seq<DocId>
  {
    Answer(FieldsFor(q), docs, AskedFor(IndexFor(q), l, limit), c)
  }

  /** A limit does not change what is inside. */
  lemma {:induction false} SelectsAlike(fields: seq<SortField>, docs: Docs, o: RangeOpt, o': RangeOpt, ids: seq<DocId>)
    requires FitsAll(fields, o) && o' == o.(limit := o'.limit)
    ensures Select(fields, docs, o', ids) == Select(fields, docs, o, ids)
  {
    if ids != [] { SelectsAlike(fields, docs, o, o', ids[1..]); }
  }

  lemma {:induction false} ReplyIs(q: Query, docs: Docs, l: Limits, limit: int, c: seq<DocId>)
    requires limit <= 1000
    ensures Reply(q, docs, l, limit, c) == Limited(limit, Chosen(q, docs, l, Ordered(IndexFor(q), c)))
  {
    var o := AskedFor(IndexFor(q), l, limit);
    assert LimitOf(o) == limit && o.reverse == Backwards(IndexFor(q));
    SelectsAlike(FieldsFor(q), docs, AskedFor(IndexFor(q), l, 1000), o, Ordered(IndexFor(q), c));
  }

  lemma {:induction false} OpenBounds(q: Query)
    requires WellFormed(q)
    ensures q.range != [] && q.range[0].cmp.Ne? ==>
      LimitsOf(q).start == EdgeBound(q.equals, q.range[0].field, Open) == LimitsOf(q).end
    ensures q.equals == [] && Ranged(q) ==>
      (LimitsOf(q).start.Some? ==> LimitsOf(q).revStart) && (LimitsOf(q).end.Some? ==> LimitsOf(q).revEnd)
  {
    if q.range != [] {
      if Ranged(q) {
        RangedOneEach(q);
        EdgesOf(q.equals, q.range, q.range[0].field);
      } else {
        assert |q.range| == 1;
        var front := q.range[..|q.range| - 1];
        assert front == [];
        assert StartOf(q.equals, q.range) == StartOf(q.equals, front)
          && EndOf(q.equals, q.range) == EndOf(q.equals, front);
      }
    }
  }

  /** One range answers the query. */
  lemma {:induction false} OneAnswer(q: Query, docs: Docs, c: seq<DocId>)
    requires Answerable(q) && Ranged(q) && AllHave(docs, NameOf(IndexFor(q)), c)
    ensures Reply(q, docs, LimitsOf(q), q.limit, c) == Limited(q.limit,
      Matching(docs, Turned(q), Ordered(IndexFor(q), c)))
  {
    var sort, l, ids := IndexFor(q), LimitsOf(q), Ordered(IndexFor(q), c);
    IsReady(q);
    OpenBounds(q);
    forall i | 0 <= i < |ids|
        ensures Within(q, docs, l, ids[i]) <==> ids[i] in docs && Satisfies(ids[i], docs[ids[i]], Turned(q)) {
      assert ids[i] in c;
      SameInside(FieldsFor(q), docs, l, 1000, Backwards(sort), ids[i]);
      TurnedSelects(q, ids[i], docs[ids[i]]);
    }
    SelectIsMatching(FieldsFor(q), docs, AskedFor(sort, l, 1000), Turned(q), ids);
    ReplyIs(q, docs, l, q.limit, c);
  }

  /** A query with one != on a field. */
  ghost predicate Excludes(q: Query)
  {
    Answerable(q) && q.range != [] && q.range[0].cmp.Ne?
  }

  /** The range of a != that comes first in the wanted order, and the other one. */
  function FirstOf(q: Query): Limits
    requires q.range != []
  {
    if Backwards(IndexFor(q)) then AboveOf(q, LimitsOf(q)) else BelowOf(q, LimitsOf(q))
  }

  function SecondOf(q: Query): Limits
    requires q.range != []
  {
    if Backwards(IndexFor(q)) then BelowOf(q, LimitsOf(q)) else AboveOf(q, LimitsOf(q))
  }

  /** What the two ranges of a != select, and where that lies. */
  lemma {:induction false} TwoInside(q: Query, docs: Docs, id: DocId)
    requires Excludes(q) && Wants(docs, NameOf(IndexFor(q)), id)
    ensures Satisfies(id, docs[id], q) <==>
      Within(q, docs, BelowOf(q, LimitsOf(q)), id) || Within(q, docs, AboveOf(q, LimitsOf(q)), id)
    ensures Within(q, docs, BelowOf(q, LimitsOf(q)), id) ==> Aside(FieldsFor(q), q, id, docs[id]) < 0
    ensures Within(q, docs, AboveOf(q, LimitsOf(q)), id) ==> Aside(FieldsFor(q), q, id, docs[id]) > 0
  {
    var fields, sort, l := FieldsFor(q), IndexFor(q), LimitsOf(q);
    IsReady(q);
    DoesCarry(q, docs[id]);
    OpenBounds(q);
    SameInside(fields, docs, BelowOf(q, l), 1000, Backwards(sort), id);
    SameInside(fields, docs, AboveOf(q, l), 1000, Backwards(sort), id);
    TwoSelect(fields, q, id, docs[id]);
  }

  /** In the wanted order nothing of the first range comes after anything of the second. */
  lemma {:induction false} TwoApart(q: Query, docs: Docs, c: seq<DocId>, i: nat, j: nat)
    requires Excludes(q) && AllHave(docs, NameOf(IndexFor(q)), c) && Sorted(FieldsFor(q), docs, c) && i <= j < |c|
    requires Within(q, docs, SecondOf(q), Ordered(IndexFor(q), c)[i])
    ensures !Within(q, docs, FirstOf(q), Ordered(IndexFor(q), c)[j])
  {
    hide BelowOf, AboveOf, IndexFor, NameOf, Within, Answerable, FieldsFor, LimitsOf;
    var sort, fields := IndexFor(q), FieldsFor(q);
    var ids := Ordered(sort, c);
    var b := Pick(fields, None, EqMap(q.equals)[q.range[0].field := q.range[0].value]);
    assert ids[i] in c && ids[j] in c;
    TwoInside(q, docs, ids[i]);
    TwoInside(q, docs, ids[j]);
    if i < j {
      if Backwards(sort) {
        AgainstMonotone(fields, docs, b, c, |c| - 1 - j, |c| - 1 - i);
      } else {
        AgainstMonotone(fields, docs, b, c, i, j);
      }
    }
  }

  /** Together the two ranges select the documents that satisfy the query. */
  lemma {:induction false} TwoSelections(q: Query, docs: Docs, c: seq<DocId>)
    requires Excludes(q) && AllHave(docs, NameOf(IndexFor(q)), c) && Sorted(FieldsFor(q), docs, c)
    ensures Chosen(q, docs, FirstOf(q), Ordered(IndexFor(q), c)) + Chosen(q, docs, SecondOf(q),
      Ordered(IndexFor(q), c)) ==
      Matching(docs, q, Ordered(IndexFor(q), c))
  {
    var ids := Ordered(IndexFor(q), c);
    var o1, o2 := AskedFor(IndexFor(q), FirstOf(q), 1000), AskedFor(IndexFor(q), SecondOf(q), 1000);
    assert FitsAll(FieldsFor(q), o1) && FitsAll(FieldsFor(q), o2);
    hide AskedFor, BelowOf, AboveOf, IndexFor, NameOf, Inside, Answerable, Satisfies, FieldsFor, LimitsOf;
    forall i | 0 <= i < |ids|
      ensures Within(q, docs, FirstOf(q), ids[i]) || Within(q, docs, SecondOf(q), ids[i]) <==>
        ids[i] in docs && Satisfies(ids[i], docs[ids[i]], q)
    {
      assert ids[i] in c;
      TwoInside(q, docs, ids[i]);
    }
    forall i, j | 0 <= i <= j < |ids| && Within(q, docs, SecondOf(q), ids[i])
        ensures !Within(q, docs, FirstOf(q), ids[j]) {
      TwoApart(q, docs, c, i, j);
    }
    SelectTwo(FieldsFor(q), docs, o1, o2, q, ids);
  }

  /** The reply of the first range, and of the second one with what is left of the limit. */
  function BothReplies(q: Query, docs: Docs, c: seq<DocId>): seq<DocId>
    requires q.range != []
  {
    var a := Reply(q, docs, FirstOf(q), q.limit, c);
    if |a| >= q.limit then a else a + Reply(q, docs, SecondOf(q), q.limit - |a|, c)
  }

  lemma {:induction false} RepliesJoin(q: Query, docs: Docs, c: seq<DocId>)
    requires q.range != [] && 1 <= q.limit <= 1000
    ensures BothReplies(q, docs, c) ==
      Limited(q.limit,
          Chosen(q, docs, FirstOf(q), Ordered(IndexFor(q), c)) + Chosen(q, docs, SecondOf(q), Ordered(IndexFor(q), c)))
  {
    hide Reply, Chosen, Ordered, IndexFor, FirstOf, SecondOf, Limited;
    var ids, a := Ordered(IndexFor(q), c), Reply(q, docs, FirstOf(q), q.limit, c);
    ReplyIs(q, docs, FirstOf(q), q.limit, c);
    ReplyIs(q, docs, SecondOf(q), q.limit - |a|, c);
    LimitedTwice(q.limit, Chosen(q, docs, FirstOf(q), ids), Chosen(q, docs, SecondOf(q), ids));
  }

  /** Two ranges one after the other answer a !=. */
  lemma {:induction false} TwoAnswer(q: Query, docs: Docs, c: seq<DocId>)
    requires Excludes(q) && AllHave(docs, NameOf(IndexFor(q)), c) && Sorted(FieldsFor(q), docs, c)
    ensures BothReplies(q, docs, c) == Limited(q.limit, Matching(docs, q, Ordered(IndexFor(q), c)))
  {
    assert q.range != [] && 1 <= q.limit <= 1000;
    hide *;
    RepliesJoin(q, docs, c);
    TwoSelections(q, docs, c);
  }

  /** The second of two ranges is asked for what the first left of the limit. */
  method TwoQueries(k: Indexer, sort: IndexName, a: Limits, b: Limits, limit: int) returns (r: Outcome<seq<DocId>>)
    requires k.Valid() && 1 <= limit <= 1000
    modifies k`trees
    ensures k.Valid() && k.docs == old(k.docs) && forall n {:trigger k.Entries(n)} :: k.Entries(n) == old(k.Entries(n))
    ensures r.Ok? <==> Served(k, sort)
    ensures r.Ok? ==>
      var fields, c := TreeFields(NameOf(sort)), k.Entries(NameOf(sort));
      var first := Answer(fields, k.docs, AskedFor(sort, a, limit), c);
      r.value == if |first| >= limit then first
          else first + Answer(fields, k.docs, AskedFor(sort, b, limit - |first|), c)
  {
    hide Indexer.Valid, Indexer.Entries, Answer;
    var x := RangeQuery(k, sort, a, limit);
    if x.Err? { return x; }
    if |x.value| >= limit { return x; }
    var y := RangeQuery(k, sort, b, limit - |x.value|);
    r := Ok(x.value + y.value);
  }

  /** What the documents listed under the chosen index give. */
  lemma {:induction false} WellListed(k: Indexer, sort: IndexName)
    requires k.Valid()
    ensures AllHave(k.docs, NameOf(sort), k.Entries(NameOf(sort)))
    ensures Sorted(TreeFields(NameOf(sort)), k.docs, k.Entries(NameOf(sort)))
  {
    hide BPT.Valid, BPT.Entries;
    assert k.Tree(NameOf(sort), k.docs) && k.Sound(NameOf(sort));
    EntriesSorted(k, NameOf(sort));
  }

  /** The answer a query should get from an index: the documents that satisfy it, of those
      the index lists, in the order of the index, up to the limit. */
  ghost predicate Right(k: Indexer, q: Query, ids: seq<DocId>)
    reads k`docs, k`trees, k.trees.Values
  {
    ids == Limited(q.limit, Matching(k.docs, Turned(q), Ordered(IndexFor(q), k.Entries(NameOf(IndexFor(q))))))
  }

  method AskOne(k: Indexer, q: Query, sort: IndexName, l: Limits) returns (r: Found)
    requires k.Valid() && Answerable(q) && Ranged(q) && sort == IndexFor(q) && l == LimitsOf(q)
    modifies k`trees
    ensures k.Valid() && k.docs == old(k.docs) && forall n {:trigger k.Entries(n)} :: k.Entries(n) == old(k.Entries(n))
    ensures (r.Ids? <==> Served(k, sort)) && !r.Lost?
    ensures r.Ids? ==> Right(k, q, r.ids)
  {
    hide Indexer.Valid, Indexer.Entries, Answer, Matching, Sorted, AllHave, Ready, LimitsOf, IndexFor;
    WellListed(k, sort);
    OneAnswer(q, k.docs, k.Entries(NameOf(sort)));
    var x := RangeQuery(k, sort, l, q.limit);
    r := if x.Ok? then Ids(x.value) else Failed(x.reason);
  }

  method AskTwo(k: Indexer, q: Query, sort: IndexName, below: Limits, above: Limits) returns (r: Found)
    requires k.Valid() && Excludes(q) && sort == IndexFor(q)
    requires below == BelowOf(q, LimitsOf(q)) && above == AboveOf(q, LimitsOf(q))
    modifies k`trees
    ensures k.Valid() && k.docs == old(k.docs) && forall n {:trigger k.Entries(n)} :: k.Entries(n) == old(k.Entries(n))
    ensures (r.Ids? <==> Served(k, sort)) && !r.Lost?
    ensures r.Ids? ==> Right(k, q, r.ids)
  {
    hide Indexer.Valid, Indexer.Entries, Answer, Matching, Sorted, AllHave, Ready, LimitsOf, IndexFor, BelowOf, AboveOf;
    WellListed(k, sort);
    var first, second := below, above;
    if Backwards(sort) { first, second := second, first; }
    TwoAnswer(q, k.docs, k.Entries(NameOf(sort)));
    NotTurned(q);
    var x := TwoQueries(k, sort, first, second, q.limit);
    r := if x.Ok? then Ids(x.value) else Failed(x.reason);
  }

  lemma {:induction false} NotTurned(q: Query)
    requires Excludes(q)
    ensures Turned(q) == q
  {
    assert |q.range| == 1;
    assert OppositeAll(q.range) == q.range;
  }
}
