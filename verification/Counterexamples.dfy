/** Small directories on which the code falls short of what it is for. */
module Counterexamples {
  import opened Lists
  import opened SortOrder
  import opened TreeInvariant
  import opened LeafOrder
  import opened Ranges
  import opened Bpt
  import opened Indexer
  import opened Parser
  import opened Planner
  import opened Queries
  import opened Cursors

  /** A directory with one document and a composite index that lists it. */
  method Sample(n: IndexName, id: DocId, doc: Doc) returns (k: Indexer)
    requires Indexer.Width(n) > 1 && Has(doc, n) && ID_FIELD !in doc
    ensures fresh(k) && k.Valid() && k.docs == map[id := doc] && n in k.indexes && k.Complete(n) && k.Entries(n) == [id]
    ensures fresh(k.trees.Values)
  {
    hide BPT.Valid, BPT.Entries, Indexer.Valid, Indexer.Entries, Indexer.Complete, Has;
    WidthWithin(n);
    k := new Indexer();
    DirectorySize(k);
    k.AddIndex(n);
    k.Put(id, doc, false);
    OnlyEntry(k, n, id, doc);
  }

  lemma {:induction false} OnlyEntry(k: Indexer, n: IndexName, id: DocId, doc: Doc)
    requires k.Valid() && k.Complete(n) && k.docs == map[id := doc] && Has(doc, n)
    ensures k.Entries(n) == [id]
  {
    hide BPT.Valid, BPT.Entries, Indexer.Valid, Indexer.Entries, Indexer.Complete, Has;
    ExactListing(k, n);
    var c := k.Entries(n);
    assert Wants(k.docs, n, id) && id in c;
    forall i | 0 <= i < |c| ensures c[i] == id { assert c[i] in c; }
    assert |c| > 1 ==> Differ(c, 0, c, 1);
  }

  const A := SortField("a", false)
  const B := SortField("b", false)
  const DOWN := SortField("b", true)
  const ONES: Doc := map["a" := Num(1.0), "b" := Num(1.0)]

  lemma {:induction false} TwoWide(x: SortField, y: SortField)
    requires |x.name| == 1 && |y.name| == 1
    ensures Indexer.Width([x, y]) == 2
  {
    assert [x, y][1..] == [y] && [y][1..] == [] && |ID_FIELD| == 6;
    assert Indexer.Width([y]) == 1;
  }

  /** A composite index is registered over one field and the id, and listed everything there
      was; a document stored then is left out of it. */
  method LeftBehind() returns (k: Indexer)
    ensures k.Valid() && k.docs == map["x" := ONES] && [A, ID] in k.indexes && Wants(k.docs, [A, ID], "x")
    ensures "x" !in k.Entries([A, ID])
  {
    hide BPT.Valid, BPT.Entries, Indexer.Valid, Indexer.Entries;
    k := new Indexer();
    k.AddIndex([A, ID]);
    assert [A, ID][1..] == [ID] && [ID][1..] == [] && Indexer.Width([ID]) == 0;
    assert A.name[0] != ID_FIELD[0] && Indexer.Width([A, ID]) == 1;
    k.Put("x", ONES, false);
  }

  // ----- a wrong answer

  const WRONG: seq<Clause> := [Equal("a", Num(1.0)), Compare("b", Gt, Num(0.0)), SortBy("b", true)]

  const WRONG_QUERY := Query([Eq("a", Num(1.0))], [Cond("b", Gt, Num(0.0))], [DOWN], 1000)

  lemma {:induction false} WrongAsks()
    ensures Asked(WRONG) == WRONG_QUERY && EqualsFirst(WRONG) && OneLimit(WRONG)
  {
    var none, one, two := WRONG[..0], WRONG[..1], WRONG[..2];
    assert one == none + [WRONG[0]] && two == one + [WRONG[1]] && WRONG == two + [WRONG[2]];
    OneMore(none, WRONG[0]);
    OneMore(one, WRONG[1]);
    OneMore(two, WRONG[2]);
  }

  lemma {:induction false} WrongRest()
    ensures Rest(WRONG_QUERY) == [DOWN] && !IsEqual(WRONG_QUERY.equals, "b")
  {
    var q := WRONG_QUERY;
    assert q.equals[..0] == [] && !InSort(q.sort, "a") && Mentioned(q.equals, q.sort) == 0;
  }

  lemma {:induction false} WrongIndex()
    ensures Answerable(WRONG_QUERY) && IndexFor(WRONG_QUERY) == [A, DOWN] && !ByTail(WRONG_QUERY)
  {
    hide Rest, IsEqual;
    WrongRest();
  }

  lemma {:induction false} WrongSelects()
    requires IndexFor(WRONG_QUERY) == [A, DOWN]
    ensures Satisfies("x", ONES, WRONG_QUERY) && !Satisfies("x", ONES, Turned(WRONG_QUERY))
  {
    hide IndexFor, KeyOf, Pick;
    var q := WRONG_QUERY;
    assert Turned(q).range[0] == Cond("b", Lt, Num(0.0));
    assert !HasInRange("x", ONES, Turned(q).range[0]);
  }

  /** The clauses are answered from the index, but not with the document. */
  lemma {:induction false} WrongGets(k: Indexer)
    requires [A, DOWN] in k.indexes && k.docs == map["x" := ONES] && k.Entries([A, DOWN]) == ["x"]
    ensures Asks(k, WRONG) && !ByTail(Asked(WRONG))
    ensures forall ids {:trigger Right(k, Asked(WRONG), ids)} :: Right(k, Asked(WRONG), ids) ==> ids == []
    ensures Satisfies("x", ONES, Asked(WRONG)) && IndexFor(Asked(WRONG)) == [A, DOWN]
  {
    WrongAsks();
    WrongIndex();
    WrongSelects();
    assert WellFormed(WRONG_QUERY);
    hide Satisfies, Turned, WellFormed, Sortable, Asked, EqualsFirst, OneLimit, Indexer.Entries;
    assert Matching(k.docs, Turned(WRONG_QUERY), ["x"]) == [];
  }

  /** A condition on a descending field: the one document satisfies the query, and the
      answer is empty. */
  method WrongAnswer() returns (k: Indexer, r: Found)
    ensures k.Valid() && k.docs == map["x" := ONES] && k.Complete([A, DOWN]) && k.Entries([A, DOWN]) == ["x"]
    ensures Satisfies("x", ONES, Asked(WRONG)) && IndexFor(Asked(WRONG)) == [A, DOWN] && r == Ids([])
  {
    TwoWide(A, DOWN);
    assert Has(ONES, [A, DOWN]);
    k := Sample([A, DOWN], "x", ONES);
    r := AskWrong(k);
  }

  method AskWrong(k: Indexer) returns (r: Found)
    requires k.Valid() && [A, DOWN] in k.indexes && k.docs == map["x" := ONES] && k.Entries([A, DOWN]) == ["x"]
    requires k.Complete([A, DOWN])
    modifies k`trees
    ensures k.Valid() && k.docs == map["x" := ONES] && k.Entries([A, DOWN]) == ["x"] && k.Complete([A, DOWN])
    ensures Satisfies("x", ONES, Asked(WRONG)) && IndexFor(Asked(WRONG)) == [A, DOWN] && r == Ids([])
  {
    hide BPT.Valid, BPT.Entries, Indexer.Valid, Indexer.Entries, Asked, Right, Asks, Starting, ByTail, Satisfies,
        IndexFor;
    WrongGets(k);
    r := Get(k, WRONG);
    WrongGets(k);
  }

  // ----- a lost cursor

  const LOST: seq<Clause> := [Equal("a", Num(1.0)), Compare("b", Ne, Num(1.0))]

  const LOST_QUERY := Query([Eq("a", Num(1.0))], [Cond("b", Ne, Num(1.0))], [], 1000)

  lemma {:induction false} LostAsks()
    ensures Asked(LOST) == LOST_QUERY && EqualsFirst(LOST) && OneLimit(LOST)
  {
    var none, one := LOST[..0], LOST[..1];
    assert one == none + [LOST[0]] && LOST == one + [LOST[1]];
    OneMore(none, LOST[0]);
    OneMore(one, LOST[1]);
  }

  lemma {:induction false} LostIndex()
    ensures Answerable(LOST_QUERY) && IndexFor(LOST_QUERY) == [A, B] && ByTail(LOST_QUERY) && Excludes(LOST_QUERY)
    ensures !Past(LOST_QUERY, map["x" := ONES], "x")
  {
    var q := LOST_QUERY;
    assert q.equals[..0] == [] && Mentioned(q.equals, q.sort) == 0 && Rest(q) == [];
    assert !IsEqual(q.equals, "b");
    IsReady(q);
    DoesCarry(q, ONES);
    AgainstOneMore(FieldsFor(q), q.equals, "b", Num(1.0), "x", ONES);
  }

  lemma {:induction false} LostStarts(k: Indexer)
    requires k.Valid() && k.docs == map["x" := ONES] && k.Entries([A, B]) == ["x"]
    ensures !Starting(k, LOST_QUERY)
  {
    LostIndex();
    assert NameOf([A, B]) == [A, B] && LOST_QUERY.range != [];
    var q := LOST_QUERY;
    assert q == LOST_QUERY;
    hide *;
    StartsPast(k, q);
    assert forall x {:trigger x in ["x"]} :: x in ["x"] ==> x == "x";
  }

  lemma {:induction false} LostServed(k: Indexer)
    requires [A, B] in k.indexes
    ensures Asks(k, LOST) && Asked(LOST) == LOST_QUERY && ByTail(LOST_QUERY)
  {
    LostAsks();
    LostIndex();
    assert WellFormed(LOST_QUERY);
    hide WellFormed, Sortable, Asked, EqualsFirst, OneLimit, Past, IndexFor, ByTail;
  }

  lemma {:induction false} LostMisses(k: Indexer)
    requires k.Valid() && [A, B] in k.indexes && k.docs == map["x" := ONES] && k.Entries([A, B]) == ["x"]
    ensures Asks(k, LOST) && Misses(k, Asked(LOST))
  {
    hide Indexer.Valid, Indexer.Entries, Asks, Asked, ByTail, Starting;
    LostServed(k);
    LostStarts(k);
  }

  /** No document is past the excluded value, so a cursor is left without a position. */
  method LostCursor() returns (k: Indexer, r: Found)
    ensures k.docs == map["x" := ONES] && r == Lost
  {
    TwoWide(A, B);
    assert Has(ONES, [A, B]);
    hide BPT.Valid, BPT.Entries, Indexer.Valid, Indexer.Entries, Indexer.Complete, Has, Asked, Asks, Misses;
    k := Sample([A, B], "x", ONES);
    LostMisses(k);
    r := Get(k, LOST);
    LostMisses(k);
  }
}
