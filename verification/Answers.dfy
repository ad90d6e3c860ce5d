/** What the answer to a query means, when it is not what was asked, and examples of both. */
module Answers {
  import opened Lists
  import opened SortOrder
  import opened TreeInvariant
  import opened LeafOrder
  import opened Ranges
  import opened Bpt
  import opened Indexer
  import opened Parser
  import opened Planner
  import opened AnswerOrder
  import opened Queries
  import M = Merge

  // ----- an answer from a complete index

  /** Listed, and satisfying the query that is answered. */
  ghost predicate Deserves(k: Indexer, q: Query, x: DocId)
    reads k`docs
  {
    Wants(k.docs, NameOf(IndexFor(q)), x) && Satisfies(x, k.docs[x], Turned(q))
  }

  lemma {:induction false} SameMembers(c: seq<DocId>, sort: IndexName)
    ensures forall x {:trigger x in c} :: x in c <==> x in Ordered(sort, c)
  {
    var r := Reversed(c);
    forall x | x in c ensures x in r {
      var i :| 0 <= i < |c| && c[i] == x;
      assert r[|c| - 1 - i] == x;
    }
  }

  lemma {:induction false} WholeMembers(k: Indexer, q: Query, x: DocId)
    requires k.Valid() && k.Complete(NameOf(IndexFor(q)))
    ensures x in Whole(k, q) <==> Deserves(k, q, x)
  {
    hide BPT.Valid, BPT.Entries, Satisfies, Has, IndexFor, Turned;
    var n := NameOf(IndexFor(q));
    var c := k.Entries(n);
    ExactListing(k, n);
    SameMembers(c, IndexFor(q));
    MatchingMembers(k.docs, Turned(q), Ordered(IndexFor(q), c));
    assert x in c <==> Wants(k.docs, n, x);
  }

  /** Below its limit, a query answered from a complete index finds every document that
      satisfies it and has the fields of the index, and no other. */
  lemma {:induction false} RightIsAll(k: Indexer, q: Query, ids: seq<DocId>, x: DocId)
    requires k.Valid() && k.Complete(NameOf(IndexFor(q))) && Right(k, q, ids) && |ids| < q.limit
    ensures x in ids <==> Deserves(k, q, x)
  {
    hide IndexFor, Turned, Indexer.Valid, Indexer.Complete, Indexer.Entries;
    assert ids == Whole(k, q);
    WholeMembers(k, q, x);
  }

  /** A document that an answer from a complete index leaves out comes after all it has, and
      the answer is as long as its limit. */
  lemma {:induction false} RightIsFirst(k: Indexer, q: Query, ids: seq<DocId>, x: DocId, y: DocId)
    requires k.Valid() && k.Complete(NameOf(IndexFor(q))) && Right(k, q, ids)
    requires Deserves(k, q, x) && x !in ids && y in ids
    ensures |ids| == q.limit && Sooner(k.docs, q, y, x)
  {
    hide Indexer.Valid, Indexer.Entries, Indexer.Complete, IndexFor, Sooner, Deserves, Matching;
    var w := Whole(k, q);
    WholeMembers(k, q, x);
    assert ids == Limited(q.limit, w);
    var i :| 0 <= i < |ids| && ids[i] == y;
    var j :| 0 <= j < |w| && w[j] == x;
    assert forall m {:trigger w[m]} :: 0 <= m < |ids| ==> w[m] == ids[m] && ids[m] in ids;
    WholeInOrder(k, q, i, j);
  }

  // ----- what the clauses say

  /** The document meets the clause. */
  predicate Met(id: DocId, doc: Doc, c: Clause)
  {
    match c
    case Equal(f, v) => HasField(doc, f) && FieldOf(id, doc, f) == v
    case Compare(f, cmp, v) =>
      HasField(doc, f) &&
      (match cmp
       case Lt => ScalarLess(FieldOf(id, doc, f), v)
       case Le => !ScalarLess(v, FieldOf(id, doc, f))
       case Gt => ScalarLess(v, FieldOf(id, doc, f))
       case Ge => !ScalarLess(FieldOf(id, doc, f), v)
       case Ne => FieldOf(id, doc, f) != v)
    case _ => true
  }

  /** A document satisfies what the clauses ask if it meets each of them. */
  lemma {:induction false} ClausesMet(cs: seq<Clause>, id: DocId, doc: Doc)
    ensures Satisfies(id, doc, Asked(cs)) <==> forall i {:trigger cs[i]} :: 0 <= i < |cs| ==> Met(id, doc, cs[i])
  {
    if cs != [] {
      var n := |cs| - 1;
      var front := cs[..n];
      ClausesMet(front, id, doc);
      SatisfiesMore(front, cs[n], id, doc);
      assert cs == front + [cs[n]];
      hide Met, Satisfies, Asked;
      assert forall i {:trigger front[i]} :: 0 <= i < n ==> front[i] == cs[i];
      assert forall i {:trigger cs[i]} :: 0 <= i < n ==> front[i] == cs[i];
    }
  }

  lemma {:induction false} SatisfiesMore(cs: seq<Clause>, c: Clause, id: DocId, doc: Doc)
    ensures Satisfies(id, doc, Asked(cs + [c])) <==> Satisfies(id, doc, Asked(cs)) && Met(id, doc, c)
  {
    OneMore(cs, c);
    var e := if c.Equal? then [Eq(c.field, c.value)] else [];
    var r := if c.Compare? then [Cond(c.field, c.cmp, c.value)] else [];
    SatisfiesBoth(id, doc, Asked(cs), e, r, Asked(cs + [c]));
    if c.Compare? && HasField(doc, c.field) { ScalarTotal(FieldOf(id, doc, c.field), c.value); }
    hide Asked, Satisfies;
    assert c.Equal? ==> e[0] == Eq(c.field, c.value);
    assert c.Compare? ==> r[0] == Cond(c.field, c.cmp, c.value);
  }

  lemma {:induction false} SatisfiesBoth(id: DocId, doc: Doc, q: Query, e: seq<Eq>, r: seq<Cond>, p: Query)
    requires p.equals == q.equals + e && p.range == q.range + r
    ensures Satisfies(id, doc, p) <==>
      && Satisfies(id, doc, q)
      && (forall i {:trigger e[i]} :: 0 <= i < |e| ==> HasEqual(id, doc, e[i]))
      && (forall i {:trigger r[i]} :: 0 <= i < |r| ==> HasInRange(id, doc, r[i]))
  {
    hide HasEqual, HasInRange;
    EveryEqual(id, doc, q.equals, e);
    EveryCond(id, doc, q.range, r);
  }

  lemma {:induction false} EveryEqual(id: DocId, doc: Doc, a: seq<Eq>, b: seq<Eq>)
    ensures (forall i {:trigger (a + b)[i]} :: 0 <= i < |a + b| ==> HasEqual(id, doc, (a + b)[i])) <==>
      (forall i {:trigger a[i]} :: 0 <= i < |a| ==> HasEqual(id, doc, a[i]))
        && forall i {:trigger b[i]} :: 0 <= i < |b| ==> HasEqual(id, doc, b[i])
  {
    hide HasEqual;
    assert forall i {:trigger a[i]} :: 0 <= i < |a| ==> (a + b)[i] == a[i];
    assert forall i {:trigger b[i]} :: 0 <= i < |b| ==> (a + b)[|a| + i] == b[i];
  }

  lemma {:induction false} EveryCond(id: DocId, doc: Doc, a: seq<Cond>, b: seq<Cond>)
    ensures (forall i {:trigger (a + b)[i]} :: 0 <= i < |a + b| ==> HasInRange(id, doc, (a + b)[i])) <==>
      (forall i {:trigger a[i]} :: 0 <= i < |a| ==> HasInRange(id, doc, a[i]))
        && forall i {:trigger b[i]} :: 0 <= i < |b| ==> HasInRange(id, doc, b[i])
  {
    hide HasInRange;
    assert forall i {:trigger a[i]} :: 0 <= i < |a| ==> (a + b)[i] == a[i];
    assert forall i {:trigger b[i]} :: 0 <= i < |b| ==> (a + b)[|a| + i] == b[i];
  }

  /** Every document of an answer is stored and meets all clauses, unless the conditions
      were turned; below its limit, an answer from a complete index has all such documents
      that have the fields of the index. */
  lemma {:induction false} AnswerMeets(k: Indexer, cs: seq<Clause>, ids: seq<DocId>, x: DocId)
    requires k.Valid() && Right(k, Asked(cs), ids) && !Descends(Asked(cs))
    ensures x in ids ==> x in k.docs && forall i {:trigger cs[i]} :: 0 <= i < |cs| ==> Met(x, k.docs[x], cs[i])
    ensures k.Complete(NameOf(IndexFor(Asked(cs)))) && |ids| < LimitIn(cs) ==>
      (x in ids <==>
        (Wants(k.docs, NameOf(IndexFor(Asked(cs))), x)
          && forall i {:trigger cs[i]} :: 0 <= i < |cs| ==> Met(x, k.docs[x], cs[i])))
  {
    hide Indexer.Valid, Indexer.Entries, Indexer.Complete, IndexFor, NameOf, Satisfies, Met, Has;
    var q := Asked(cs);
    if x in k.docs { ClausesMet(cs, x, k.docs[x]); }
    MatchingMembers(k.docs, q, Ordered(IndexFor(q), k.Entries(NameOf(IndexFor(q)))));
    if x in ids { assert x in Whole(k, q); }
    if k.Complete(NameOf(IndexFor(q))) && |ids| < q.limit { RightIsAll(k, q, ids, x); }
  }

  /** Without clauses every document is listed, up to a thousand of them, by id. */
  lemma {:induction false} NoClauses(k: Indexer, ids: seq<DocId>)
    requires k.Valid() && Right(k, Asked([]), ids)
    ensures Asks(k, []) && |ids| == if |k.docs| <= 1000 then |k.docs| else 1000
    ensures forall x {:trigger x in ids} :: x in ids ==> x in k.docs
    ensures |k.docs| <= 1000 ==> forall x {:trigger x in ids} :: x in ids <==> x in k.docs
    ensures forall i, j {:trigger ids[i], ids[j]} :: 0 <= i < j < |ids| ==> TextLess(ids[i], ids[j])
  {
    hide *;
    AsksNothing(k);
    AllListed(k, ids);
    Directory(k);
    var c := k.Entries([ID]);
    LimitedIs(c, ids);
    forall i, j | 0 <= i < j < |ids| ensures TextLess(ids[i], ids[j]) { ById(k.docs, c, i, j); }
  }

  lemma {:induction false} AsksNothing(k: Indexer)
    ensures Asks(k, []) && Asked([]) == Query([], [], [], 1000)
  {
    assert IndexFor(Query([], [], [], 1000)) == [];
  }

  lemma {:induction false} AllListed(k: Indexer, ids: seq<DocId>)
    requires k.Valid() && Right(k, Query([], [], [], 1000), ids)
    ensures ids == Limited(1000, k.Entries([ID]))
  {
    var q := Query([], [], [], 1000);
    assert IndexFor(q) == [] && NameOf([]) == [ID] && Turned(q) == q;
    hide IndexFor, Turned, NameOf, Indexer.Valid, Indexer.Entries, Limited, Satisfies;
    Directory(k);
    AllMatch(k.docs, q, k.Entries([ID]));
  }

  lemma {:induction false} LimitedIs(c: seq<DocId>, ids: seq<DocId>)
    requires ids == Limited(1000, c)
    ensures ids <= c && (|c| <= 1000 ==> ids == c) && (|c| > 1000 ==> |ids| == 1000)
    ensures forall i {:trigger ids[i]} :: 0 <= i < |ids| ==> ids[i] == c[i]
    ensures forall x {:trigger x in ids} :: x in ids ==> x in c
  {
  }

  /** The index of all documents. */
  lemma {:induction false} Directory(k: Indexer)
    requires k.Valid()
    ensures |k.Entries([ID])| == |k.docs| && Sorted([ID], k.docs, k.Entries([ID]))
    ensures forall x {:trigger x in k.Entries([ID])} :: x in k.Entries([ID]) <==> x in k.docs
  {
    hide BPT.Valid, BPT.Entries;
    assert Indexer.Basic([ID]) && TreeFields([ID]) == [ID];
    assert k.Complete([ID]);
    DirectorySize(k);
    ExactListing(k, [ID]);
    forall x ensures x in k.Entries([ID]) <==> x in k.docs { assert Wants(k.docs, [ID], x) <==> x in k.docs; }
  }

  lemma {:induction false} AllMatch(docs: Docs, q: Query, c: seq<DocId>)
    requires q.equals == [] && q.range == [] && forall x {:trigger x in c} :: x in c ==> x in docs
    ensures Matching(docs, q, c) == c
  {
    if c != [] {
      assert c[0] in c && forall x {:trigger x in c[1..]} :: x in c[1..] ==> x in c;
      AllMatch(docs, q, c[1..]);
      assert c == [c[0]] + c[1..];
    }
  }

  lemma {:induction false} ById(docs: Docs, c: seq<DocId>, i: nat, j: nat)
    requires Sorted([ID], docs, c) && i < j < |c|
    ensures TextLess(c[i], c[j])
  {
    assert Precedes([ID], docs, c, i, j);
    var a, b := KeyOf([ID], docs, c[i]), KeyOf([ID], docs, c[j]);
    assert a.parts == [Some(Text(c[i]))] && b.parts == [Some(Text(c[j]))];
    assert a.parts[0] == b.parts[0] ==> CompFrom([ID], a, b, false, 0) == CompFrom([ID], a, b, false, 1);
  }

  // ----- conditions on a descending field of a composite index

  /** A value some document can have in the field. */
  predicate Attainable(f: string, w: Scalar)
  {
    f == ID_FIELD ==> w.Text?
  }

  predicate AllHold(range: seq<Cond>, w: Scalar)
  {
    forall i {:trigger range[i]} :: 0 <= i < |range| ==> Holds(range[i], w)
  }

  /** Some equality no document can meet. */
  predicate Unmatchable(equals: seq<Eq>)
  {
    exists k {:trigger equals[k]} :: 0 <= k < |equals| && !Attainable(equals[k].field, equals[k].value)
  }

  /** Asked and answered, the query has the same documents. */
  ghost predicate Agrees(q: Query)
  {
    forall id, doc {:trigger Satisfies(id, doc, q)} :: ID_FIELD !in doc ==>
        (Satisfies(id, doc, q) <==> Satisfies(id, doc, Turned(q)))
  }

  function IdFor(q: Query, w: Scalar): DocId
  {
    if q.range != [] && q.range[0].field == ID_FIELD && w.Text? then w.s
    else if ID_FIELD in EqMap(q.equals) && EqMap(q.equals)[ID_FIELD].Text? then EqMap(q.equals)[ID_FIELD].s
    else ""
  }

  /** A document with the equal values and w in the field of the conditions. */
  lemma {:induction false} Witness(q: Query, w: Scalar) returns (id: DocId, doc: Doc)
    requires WellFormed(q) && OnOtherField(q) && Ranged(q) && q.range != []
    requires !Unmatchable(q.equals) && Attainable(q.range[0].field, w)
    ensures ID_FIELD !in doc
    ensures Satisfies(id, doc, q) <==> AllHold(q.range, w)
    ensures Satisfies(id, doc, Turned(q)) <==> AllHold(Turned(q).range, w)
  {
    var f := q.range[0].field;
    id := IdFor(q, w);
    doc := EqMap(q.equals)[f := w] - {ID_FIELD};
    EqMapIs(q.equals);
    forall k | 0 <= k < |q.equals| ensures HasEqual(id, doc, q.equals[k]) {
      assert IsEqual(q.equals, q.equals[k].field) && Attainable(q.equals[k].field, q.equals[k].value);
    }
    assert HasField(doc, f) && FieldOf(id, doc, f) == w;
    HoldsThere(q.range, f, id, doc);
    HoldsThere(Turned(q).range, f, id, doc);
  }

  lemma {:induction false} HoldsThere(range: seq<Cond>, f: string, id: DocId, doc: Doc)
    requires OnField(range, f) && HasField(doc, f)
    ensures (forall i {:trigger range[i]} :: 0 <= i < |range| ==> HasInRange(id, doc, range[i])) <==>
      AllHold(range, FieldOf(id, doc, f))
  {
    assert forall i {:trigger range[i]} :: 0 <= i < |range| ==>
      (HasInRange(id, doc, range[i]) <==> Holds(range[i], FieldOf(id, doc, f)));
  }

  /** Both have the same documents exactly if their conditions hold of the same values. */
  lemma {:induction false} AgreeOnValues(q: Query)
    requires WellFormed(q) && OnOtherField(q) && Ranged(q) && q.range != []
    ensures Agrees(q) <==>
      Unmatchable(q.equals) ||
      forall w {:trigger AllHold(q.range, w)} :: Attainable(q.range[0].field, w) ==>
          (AllHold(q.range, w) <==> AllHold(Turned(q).range, w))
  {
    var f := q.range[0].field;
    if Unmatchable(q.equals) {
      forall id, doc ensures !Satisfies(id, doc, q) && !Satisfies(id, doc, Turned(q)) {
        var k :| 0 <= k < |q.equals| && !Attainable(q.equals[k].field, q.equals[k].value);
        assert !HasEqual(id, doc, q.equals[k]);
      }
    } else {
      if Agrees(q) {
        forall w | Attainable(f, w) ensures AllHold(q.range, w) <==> AllHold(Turned(q).range, w) {
          var id, doc := Witness(q, w);
        }
      }
      if forall w {:trigger AllHold(q.range, w)} :: Attainable(f, w) ==>
          (AllHold(q.range, w) <==> AllHold(Turned(q).range, w)) {
        forall id, doc | ID_FIELD !in doc ensures Satisfies(id, doc, q) <==> Satisfies(id, doc, Turned(q)) {
          assert q.range[0].field == f && Turned(q).range[0].field == f;
          if HasField(doc, f) {
            HoldsThere(q.range, f, id, doc);
            HoldsThere(Turned(q).range, f, id, doc);
            assert Attainable(f, FieldOf(id, doc, f));
          } else {
            assert !HasInRange(id, doc, q.range[0]) && !HasInRange(id, doc, Turned(q).range[0]);
          }
        }
      }
    }
  }

  /** Of two values the first is the next one after the second. */
  predicate Adjacent(a: Scalar, b: Scalar)
  {
    (a == Flag(false) && b == Flag(true)) || (a.Text? && b.Text? && b.s == a.s + ['\0'])
  }

  lemma {:induction false} NextText(s: string, t: string)
    requires TextLess(s, t)
    ensures t == s + ['\0'] || TextLess(s + ['\0'], t)
  {
    var n := s + ['\0'];
    if s == [] {
      assert t[0] == '\0' ==> n[1..] == [];
      if t[0] == '\0' && t[1..] == [] { assert t == ['\0']; }
    } else if s[0] == t[0] {
      NextText(s[1..], t[1..]);
      assert n[1..] == s[1..] + ['\0'] && t == [t[0]] + t[1..];
    }
  }

  lemma {:induction false} NoTextBetween(s: string, w: string)
    ensures !(TextLess(s, w) && TextLess(w, s + ['\0']))
  {
    var n := s + ['\0'];
    if s != [] && w != [] && s[0] == w[0] {
      assert n[1..] == s[1..] + ['\0'];
      NoTextBetween(s[1..], w[1..]);
    }
  }

  lemma {:induction false} TextGrows(s: string, c: char)
    ensures TextLess(s, s + [c])
  {
    if s != [] {
      assert (s + [c])[1..] == s[1..] + [c];
      TextGrows(s[1..], c);
    }
  }

  /** Between two values that are not next to each other lies another one. */
  lemma {:induction false} Between(a: Scalar, b: Scalar) returns (w: Scalar)
    requires ScalarLess(a, b) && !Adjacent(a, b)
    ensures ScalarLess(a, w) && ScalarLess(w, b) && (a.Text? ==> w.Text?)
  {
    if a.Flag? {
      w := if b.Text? then Num(0.0) else if a.b then Num(b.n - 1.0) else Flag(true);
    } else if a.Num? {
      w := if b.Text? then Num(a.n + 1.0) else Num((a.n + b.n) / 2.0);
    } else {
      w := Text(a.s + ['\0']);
      TextGrows(a.s, '\0');
      NextText(a.s, b.s);
    }
  }

  lemma {:induction false} NothingBetween(a: Scalar, b: Scalar, w: Scalar)
    requires Adjacent(a, b)
    ensures !(ScalarLess(a, w) && ScalarLess(w, b))
  {
    if a.Text? && w.Text? { NoTextBetween(a.s, w.s); }
  }

  /** w lies from a to b, these included or not. */
  predicate Spans(a: Scalar, ia: bool, b: Scalar, ib: bool, w: Scalar)
  {
    (ScalarLess(a, w) || (ia && w == a)) && (ScalarLess(w, b) || (ib && w == b))
  }

  /** No value a document can have in the field lies from a to b. */
  predicate Hollow(f: string, a: Scalar, ia: bool, b: Scalar, ib: bool)
  {
    if f != ID_FIELD || a.Text? then !ia && !ib && Adjacent(a, b)
    else if b.Text? then !ib && b.s == []
    else true
  }

  lemma {:induction false} HollowIs(f: string, a: Scalar, ia: bool, b: Scalar, ib: bool)
    requires ScalarLess(a, b)
    ensures Hollow(f, a, ia, b, ib) <==> forall w {:trigger Spans(a, ia, b, ib, w)} :: Attainable(f, w) ==>
      !Spans(a, ia, b, ib, w)
  {
    if Hollow(f, a, ia, b, ib) {
      forall w | Attainable(f, w) ensures !Spans(a, ia, b, ib, w) {
        if f != ID_FIELD || a.Text? { NothingBetween(a, b, w); }
      }
    } else if f != ID_FIELD || a.Text? {
      var w := a;
      if ia {
        assert Spans(a, ia, b, ib, a) && Attainable(f, a);
      } else if ib {
        assert Spans(a, ia, b, ib, b) && Attainable(f, b);
      } else {
        w := Between(a, b);
        assert Spans(a, ia, b, ib, w) && Attainable(f, w);
      }
    } else if ib {
      assert Spans(a, ia, b, ib, b) && Attainable(f, b);
    } else {
      assert Spans(a, ia, b, ib, Text([])) && Attainable(f, Text([]));
    }
  }

  function Inclusive(c: Cmp): bool { c.Le? || c.Ge? }

  /** With one condition from each side, when taking both for their opposites changes nothing. */
  predicate Idle(x: Cond, y: Cond)
  {
    || x.value == y.value
    || (if ScalarLess(x.value, y.value) then Hollow(x.field, x.value, Inclusive(x.cmp), y.value, Inclusive(y.cmp))
        else Hollow(x.field, y.value, Inclusive(y.cmp), x.value, Inclusive(x.cmp)))
  }

  function Contrary(c: Cond): Cond
  {
    c.(cmp := Opposite(c.cmp))
  }

  predicate BothHold(x: Cond, y: Cond, w: Scalar)
  {
    Holds(x, w) && Holds(y, w)
  }

  lemma {:induction false} IdleIs(x: Cond, y: Cond)
    requires Lower(x.cmp) && Upper(y.cmp) && x.field == y.field
    ensures Idle(x, y) <==>
      forall w {:trigger Holds(x, w)} :: Attainable(x.field, w) ==>
        (BothHold(x, y, w) <==> BothHold(Contrary(x), Contrary(y), w))
  {
    ScalarTotal(x.value, y.value);
    var x', y' := Contrary(x), Contrary(y);
    var less := ScalarLess(x.value, y.value);
    var a, b := if less then x else y, if less then y else x;
    forall w
      ensures x.value == y.value ==> (BothHold(x, y, w) <==> BothHold(x', y', w))
      ensures x.value != y.value ==>
        (Spans(a.value, Inclusive(a.cmp), b.value, Inclusive(b.cmp), w) <==> (BothHold(x, y, w) != BothHold(x', y', w)))
    {
      Opposed(x, y, w);
    }
    if x.value != y.value { HollowIs(x.field, a.value, Inclusive(a.cmp), b.value, Inclusive(b.cmp)); }
  }

  /** Of a pair of conditions and their opposites at most one can hold, between the values. */
  lemma {:induction false} Opposed(x: Cond, y: Cond, w: Scalar)
    requires Lower(x.cmp) && Upper(y.cmp)
    ensures x.value == y.value ==> (BothHold(x, y, w) <==> BothHold(Contrary(x), Contrary(y), w))
    ensures ScalarLess(x.value, y.value) ==> !BothHold(Contrary(x), Contrary(y), w)
    ensures ScalarLess(x.value, y.value) ==>
      (BothHold(x, y, w) <==> Spans(x.value, Inclusive(x.cmp), y.value, Inclusive(y.cmp), w))
    ensures ScalarLess(y.value, x.value) ==> !BothHold(x, y, w)
    ensures ScalarLess(y.value, x.value) ==>
      (BothHold(Contrary(x), Contrary(y), w) <==> Spans(y.value, Inclusive(y.cmp), x.value, Inclusive(x.cmp), w))
  {
    ScalarTotal(x.value, w);
    ScalarTotal(y.value, w);
    if ScalarLess(x.value, y.value) {
      if ScalarLess(y.value, w) { ScalarTransitive(x.value, y.value, w); }
      if ScalarLess(w, x.value) { ScalarTransitive(w, x.value, y.value); }
    }
    if ScalarLess(y.value, x.value) {
      if ScalarLess(x.value, w) { ScalarTransitive(y.value, x.value, w); }
      if ScalarLess(w, y.value) { ScalarTransitive(w, y.value, x.value); }
    }
  }

  /** The lower and the upper one of two conditions. */
  function LowOf(range: seq<Cond>): Cond
    requires |range| == 2
  {
    if Lower(range[0].cmp) then range[0] else range[1]
  }

  function HighOf(range: seq<Cond>): Cond
    requires |range| == 2
  {
    if Lower(range[0].cmp) then range[1] else range[0]
  }

  /** Conditions on a descending field of a composite index that can be taken for their
      opposites without harm. */
  predicate Harmless(q: Query)
  {
    Unmatchable(q.equals) || (|q.range| == 2 && Idle(LowOf(q.range), HighOf(q.range)))
  }

  /** A single condition and its opposite part on a value above. */
  lemma {:induction false} OneDiffers(c: Cond) returns (w: Scalar)
    requires !c.cmp.Ne?
    ensures Attainable(c.field, w) && (Holds(c, w) != Holds(Contrary(c), w))
  {
    w := if c.value.Text? then Text(c.value.s + ['a']) else Text([]);
    if c.value.Text? { TextGrows(c.value.s, 'a'); }
    ScalarTotal(c.value, w);
  }

  /** With conditions on a descending field of a composite index, asked and answered have
      the same documents exactly if the conditions are harmless: never with one condition;
      with one from each side if their values are equal, or if neither value is included
      and no value a document can have lies between them. */
  lemma {:induction false} TurnedAgrees(q: Query)
    requires WellFormed(q) && OnOtherField(q) && Ranged(q) && Descends(q)
    ensures Agrees(q) <==> Harmless(q)
  {
    AgreeOnValues(q);
    var f, t := q.range[0].field, Turned(q).range;
    assert t == OppositeAll(q.range);
    hide IndexFor, Satisfies, Turned, Holds, Idle, WellFormed, Attainable, Unmatchable, OppositeAll, Agrees;
    if |q.range| == 1 {
      var w := OneDiffers(q.range[0]);
      OneHolds(q.range, w);
      OneHolds(t, w);
      assert t[0] == Contrary(q.range[0]) && AllHold(q.range, w) != AllHold(t, w);
    } else {
      AtMostTwo(q);
      var x, y := LowOf(q.range), HighOf(q.range);
      forall w ensures (AllHold(q.range, w) <==> BothHold(x, y, w))
          && (AllHold(t, w) <==> BothHold(Contrary(x), Contrary(y), w)) {
        TwoHold(q.range, t, w);
      }
      IdleIs(x, y);
      assert x.field == f;
    }
  }

  lemma {:induction false} OneHolds(range: seq<Cond>, w: Scalar)
    requires |range| == 1
    ensures AllHold(range, w) <==> Holds(range[0], w)
  {
  }

  lemma {:induction false} TwoHold(range: seq<Cond>, t: seq<Cond>, w: Scalar)
    requires |range| == 2 && t == OppositeAll(range)
    ensures AllHold(range, w) <==> BothHold(LowOf(range), HighOf(range), w)
    ensures AllHold(t, w) <==> BothHold(Contrary(LowOf(range)), Contrary(HighOf(range)), w)
  {
    assert t[0] == Contrary(range[0]) && t[1] == Contrary(range[1]);
  }

  lemma {:induction false} TwoOfThree(range: seq<Cond>)
    ensures |range| > 2 ==>
      exists i, j {:trigger range[i], range[j]} :: 0 <= i < j < |range| && Upper(range[i].cmp) == Upper(range[j].cmp)
  {
    if |range| > 2 {
      var a, b, c := Upper(range[0].cmp), Upper(range[1].cmp), Upper(range[2].cmp);
      assert a == b || a == c || b == c;
    }
  }

  lemma {:induction false} AtMostTwo(q: Query)
    requires WellFormed(q) && Ranged(q) && q.range != []
    ensures |q.range| == 1 || (|q.range| == 2 && Lower(LowOf(q.range).cmp) && Upper(HighOf(q.range).cmp))
    ensures forall i {:trigger q.range[i]} :: 0 <= i < |q.range| ==>
      q.range[i].field == q.range[0].field && !q.range[i].cmp.Ne?
  {
    RangedOneEach(q);
    TwoOfThree(q.range);
  }
}
