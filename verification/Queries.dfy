/** Answering a query from the clauses a caller writes. */
module Queries {
  import opened Lists
  import opened SortOrder
  import opened TreeInvariant
  import opened LeafOrder
  import opened Ranges
  import opened Bpt
  import opened Indexer
  import opened Parser
  import opened Planner
  import opened AnswerOrder
  import M = Merge
  import opened Cursors

  // ----- a != next to equalities, without a sort order: merged cursors

  /** What a cursor is opened with: a limit of its own is taken away again. */
  function CursorFor(sort: IndexName, l: Limits): (o: RangeOpt)
    ensures FitsAll(TreeFields(NameOf(sort)), o)
  {
    AskedFor(sort, l, 1000).(limit := None)
  }

  /** Everything a cursor gives. */
  lemma {:induction false} CursorGives(q: Query, docs: Docs, l: Limits, c: seq<DocId>)
    requires !Backwards(IndexFor(q))
    ensures Answer(FieldsFor(q), docs, CursorFor(IndexFor(q), l), c) == Limited(1000, Chosen(q, docs, l, c))
  {
    SelectsAlike(FieldsFor(q), docs, AskedFor(IndexFor(q), l, 1000), CursorFor(IndexFor(q), l), c);
  }

  lemma {:induction false} ByTailForward(q: Query)
    requires ByTail(q)
    ensures !Backwards(IndexFor(q))
  {
    assert IndexFor(q)[0] == SortField(q.equals[0].field, false);
  }

  /** The beginnings of two lists, the first before the second. */
  lemma {:induction false} BeginningsAscend(fields: seq<SortField>, docs: Docs, a: seq<DocId>, b: seq<DocId>,
      a': seq<DocId>, b': seq<DocId>)
    requires M.Ascending(fields, docs, a + b) && a' <= a && b' <= b
    ensures M.Ascending(fields, docs, a' + b')
  {
    var u, u' := a + b, a' + b';
    forall i, j ensures M.PairInOrder(fields, docs, u', i, j) {
      assert M.PairInOrder(fields, docs, u, if i < |a'| then i else i - |a'| + |a|, if j < |a'| then j
        else j - |a'| + |a|);
    }
  }

  lemma {:induction false} PairIsUnion(fields: seq<SortField>, docs: Docs, a: seq<DocId>, b: seq<DocId>)
    requires M.Ascending(fields, docs, a + b)
    ensures M.IsUnion(fields, docs, [a, b], a + b)
  {
    forall x ensures x in a + b <==> M.InSome([a, b], x) {
      if x in a { assert [a, b][0] == a; }
      if x in b { assert [a, b][1] == b; }
    }
  }

  lemma {:induction false} TakeEnough<T>(limit: nat, a: seq<T>, b: seq<T>)
    requires 1 <= limit <= 1000
    ensures M.Take(Some(limit), Limited(1000, a) + Limited(1000, b)) == Limited(limit, a + b)
  {
  }

  /** What the two cursors give. */
  function TailLists(q: Query, docs: Docs, c: seq<DocId>): seq<seq<DocId>>
    requires q.range != []
  {
    [Limited(1000, Chosen(q, docs, BelowOf(q, LimitsOf(q)), c)),
        Limited(1000, Chosen(q, docs, AboveOf(q, LimitsOf(q)), c))]
  }

  /** The first documents of the union of the two cursors are the answer. */
  lemma {:induction false} TailAnswer(q: Query, docs: Docs, c: seq<DocId>) returns (u: seq<DocId>)
    requires Excludes(q) && ByTail(q) && AllHave(docs, NameOf(IndexFor(q)), c) && Sorted(FieldsFor(q), docs, c)
    ensures M.IsUnion(FieldsFor(q), docs, TailLists(q, docs, c), u)
    ensures M.Take(Some(q.limit), u) == Limited(q.limit, Matching(docs, q, c))
  {
    ByTailForward(q);
    TwoSelections(q, docs, c);
    M.SortedAscends(FieldsFor(q), docs, c);
    MatchingAscends(FieldsFor(q), docs, q, c);
    var a, b := Chosen(q, docs, BelowOf(q, LimitsOf(q)), c), Chosen(q, docs, AboveOf(q, LimitsOf(q)), c);
    var a', b' := Limited(1000, a), Limited(1000, b);
    assert a + b == Matching(docs, q, c) && a' <= a && b' <= b && 1 <= q.limit <= 1000
      && TailLists(q, docs, c) == [a', b'];
    u := a' + b';
    hide *;
    BeginningsAscend(FieldsFor(q), docs, a, b, a', b');
    PairIsUnion(FieldsFor(q), docs, a', b');
    TakeEnough(q.limit, a, b);
  }

  /** Documents that satisfy the query have its first equal value first in their sort key. */
  lemma {:induction false} HeadValue(q: Query, docs: Docs, x: DocId)
    requires Answerable(q) && q.equals != [] && x in docs && Satisfies(x, docs[x], q)
    ensures FieldsFor(q) != [] && KeyOf(FieldsFor(q), docs, x).parts[0] == Some(q.equals[0].value)
  {
    IsReady(q);
    assert FieldsFor(q)[0] == SortField(q.equals[0].field, false) && HasEqual(x, docs[x], q.equals[0]);
  }

  lemma {:induction false} ChosenMembers(q: Query, docs: Docs, l: Limits, c: seq<DocId>)
    ensures forall x {:trigger x in Chosen(q, docs, l, c)} :: x in Chosen(q, docs, l, c) ==>
      x in c && Within(q, docs, l, x)
  {
    if c != [] {
      assert Chosen(q, docs, l, c) == (if Within(q, docs, l, c[0]) then [c[0]] else []) + Chosen(q, docs, l, c[1..]);
      hide Chosen, Within;
      ChosenMembers(q, docs, l, c[1..]);
    }
  }

  lemma {:induction false} TailMembers(q: Query, docs: Docs, c: seq<DocId>, x: DocId)
    requires q.range != [] && M.InSome(TailLists(q, docs, c), x)
    ensures x in c && (Within(q, docs, BelowOf(q, LimitsOf(q)), x) || Within(q, docs, AboveOf(q, LimitsOf(q)), x))
  {
    hide Chosen, Within, BelowOf, AboveOf, LimitsOf;
    var below, above := BelowOf(q, LimitsOf(q)), AboveOf(q, LimitsOf(q));
    ChosenMembers(q, docs, below, c);
    ChosenMembers(q, docs, above, c);
    var a, b := Chosen(q, docs, below, c), Chosen(q, docs, above, c);
    var all := TailLists(q, docs, c);
    var k :| 0 <= k < |all| && x in all[k];
    var list := if k == 0 then a else b;
    assert all[k] == Limited(1000, list);
    assert x in list;
  }

  lemma {:induction false} TailHead(q: Query, docs: Docs, c: seq<DocId>)
    requires Excludes(q) && ByTail(q) && AllHave(docs, NameOf(IndexFor(q)), c)
    ensures FieldsFor(q) != [] && SameHead(FieldsFor(q), docs, TailLists(q, docs, c))
  {
    TailFields(q);
    hide Chosen, Within, Satisfies, FieldsFor, IndexFor, NameOf, BelowOf, AboveOf, LimitsOf, Answerable, KeyOf,
        TailLists, M.InSome;
    forall x | M.InSome(TailLists(q, docs, c), x)
      ensures KeyOf(FieldsFor(q), docs, x).parts[0] == Some(q.equals[0].value)
    {
      TailMembers(q, docs, c, x);
      TwoInside(q, docs, x);
      HeadValue(q, docs, x);
    }
  }

  lemma {:induction false} TailFields(q: Query)
    requires ByTail(q)
    ensures q.equals != [] && q.range != [] && FieldsFor(q) != [] && FieldsFor(q) == TreeFields(IndexFor(q))
    ensures NameOf(IndexFor(q)) == IndexFor(q)
    ensures EndsWithId(FieldsFor(q))
  {
    ByTailForward(q);
  }

  /** The cursor of one of the ranges finds a place to start from. */
  ghost predicate Opens(q: Query, docs: Docs, l: Limits, c: seq<DocId>)
  {
    Startable(FieldsFor(q), docs, CursorFor(IndexFor(q), l), c)
  }

  /** The document is past its start. */
  ghost predicate Begun(q: Query, docs: Docs, l: Limits, x: DocId)
  {
    Starts(FieldsFor(q), CursorFor(IndexFor(q), l), KeyOf(FieldsFor(q), docs, x))
  }

  /** Both cursors find a place to start from. */
  ghost predicate Starting(k: Indexer, q: Query)
    requires q.range != []
    reads k`docs, k`trees, k.trees.Values
  {
    && Opens(q, k.docs, BelowOf(q, LimitsOf(q)), k.Entries(NameOf(IndexFor(q))))
    && Opens(q, k.docs, AboveOf(q, LimitsOf(q)), k.Entries(NameOf(IndexFor(q))))
  }

  /** The document comes after the excluded value in the order of the index. */
  ghost predicate Past(q: Query, docs: Docs, x: DocId)
    requires q.range != []
  {
    x in docs && Aside(FieldsFor(q), q, x, docs[x]) > 0
  }

  lemma {:induction false} OpensIs(q: Query, docs: Docs, l: Limits, c: seq<DocId>)
    ensures Opens(q, docs, l, c) <==> c == [] || exists x {:trigger x in c} :: x in c && Begun(q, docs, l, x)
  {
    hide Starts;
    if Opens(q, docs, l, c) && c != [] {
      var i :| 0 <= i < |c| && Starts(FieldsFor(q), CursorFor(IndexFor(q), l), KeyOf(FieldsFor(q), docs, c[i]));
      assert c[i] in c && Begun(q, docs, l, c[i]);
    }
    if x :| x in c && Begun(q, docs, l, x) {
      var i :| 0 <= i < |c| && c[i] == x;
    }
  }

  /** They do exactly if the index is empty or lists a document after the excluded value. */
  lemma {:induction false} StartsPast(k: Indexer, q: Query)
    requires k.Valid() && Excludes(q) && ByTail(q)
    ensures Starting(k, q) <==>
      k.Entries(NameOf(IndexFor(q))) == [] ||
      exists x {:trigger x in k.Entries(NameOf(IndexFor(q)))} ::
          x in k.Entries(NameOf(IndexFor(q))) && Past(q, k.docs, x)
  {
    var c := k.Entries(NameOf(IndexFor(q)));
    WellListed(k, IndexFor(q));
    hide Indexer.Valid, Indexer.Entries, Sorted, Answerable, IndexFor, FieldsFor, Opens, Begun, Past, BelowOf, AboveOf,
        LimitsOf;
    OpensIs(q, k.docs, BelowOf(q, LimitsOf(q)), c);
    OpensIs(q, k.docs, AboveOf(q, LimitsOf(q)), c);
    forall x | x in c
      ensures Begun(q, k.docs, AboveOf(q, LimitsOf(q)), x) <==> Past(q, k.docs, x)
      ensures Past(q, k.docs, x) ==> Begun(q, k.docs, BelowOf(q, LimitsOf(q)), x)
    {
      StartsThere(q, k.docs, x);
    }
  }

  lemma {:induction false} StartsThere(q: Query, docs: Docs, x: DocId)
    requires Excludes(q) && ByTail(q) && Wants(docs, NameOf(IndexFor(q)), x)
    ensures Begun(q, docs, AboveOf(q, LimitsOf(q)), x) <==> Past(q, docs, x)
    ensures Past(q, docs, x) ==> Begun(q, docs, BelowOf(q, LimitsOf(q)), x)
  {
    ByTailForward(q);
    OpenBounds(q);
    IsReady(q);
    DoesCarry(q, docs[x]);
    EqSideZero(q.equals, x, docs[x], 0);
    AgainstEqualities(FieldsFor(q), q.equals, x, docs[x]);
    AgainstOneMore(FieldsFor(q), q.equals, q.range[0].field, q.range[0].value, x, docs[x]);
    assert KeyOf(FieldsFor(q), docs, x) == Pick(FieldsFor(q), Some(x), docs[x]);
  }

  /** Opens the two cursors and merges them. Documents are placed by all sort fields but the
      first, on which all of them agree. */
  method AskTail(k: Indexer, q: Query, sort: IndexName, below: Limits, above: Limits) returns (r: Found)
    requires k.Valid() && Excludes(q) && ByTail(q) && sort == IndexFor(q)
    requires below == BelowOf(q, LimitsOf(q)) && above == AboveOf(q, LimitsOf(q))
    modifies k`trees
    ensures k.Valid() && k.docs == old(k.docs) && forall n {:trigger k.Entries(n)} :: k.Entries(n) == old(k.Entries(n))
    ensures r.Failed? <==> !Served(k, sort)
    ensures r.Lost? <==> Served(k, sort) && !Starting(k, q)
    ensures r.Ids? ==> Right(k, q, r.ids)
  {
    hide *;
    TailFields(q);
    if !Served(k, sort) { return Failed("missing index"); }
    var o := k.Handle(NameOf(sort));
    r := MergeIn(k, q, o, sort, below, above);
  }

  /** The same, once the tree is at hand. */
  method MergeIn(k: Indexer, q: Query, o: BPT, sort: IndexName, below: Limits, above: Limits) returns (r: Found)
    requires k.Valid() && Excludes(q) && ByTail(q) && sort == IndexFor(q)
    requires below == BelowOf(q, LimitsOf(q)) && above == AboveOf(q, LimitsOf(q))
    requires o.fields == TreeFields(NameOf(sort)) && o.Valid(k.docs) && o.Entries() == k.Entries(NameOf(sort))
    ensures k.Valid() && forall n {:trigger k.Entries(n)} :: k.Entries(n) == old(k.Entries(n))
    ensures !r.Failed? && (r.Lost? <==> !Starting(k, q)) && (r.Ids? ==> Right(k, q, r.ids))
  {
    assert q.range != [];
    hide *;
    WellListed(k, sort);
    TailOpens(k, q, o);
    r := MergeTwo(q, o, k.docs, sort, below, above);
    if r.Ids? { TailRight(k, q, r.ids); }
  }

  lemma {:induction false} TailOpens(k: Indexer, q: Query, o: BPT)
    requires Excludes(q) && ByTail(q) && o.fields == TreeFields(NameOf(IndexFor(q)))
    requires o.Entries() == k.Entries(NameOf(IndexFor(q)))
    ensures o.fields == FieldsFor(q) && NameOf(IndexFor(q)) == IndexFor(q)
    ensures Starting(k, q) <==>
      Opens(q, k.docs, BelowOf(q, LimitsOf(q)), o.Entries()) && Opens(q, k.docs, AboveOf(q, LimitsOf(q)), o.Entries())
  {
    TailFields(q);
  }

  lemma {:induction false} TailRight(k: Indexer, q: Query, ids: seq<DocId>)
    requires Excludes(q) && ByTail(q) && ids == Limited(q.limit, Matching(k.docs, q, k.Entries(NameOf(IndexFor(q)))))
    ensures Right(k, q, ids)
  {
    NotTurned(q);
    ByTailForward(q);
  }

  method MergeTwo(q: Query, o: BPT, docs: Docs, sort: IndexName, below: Limits, above: Limits) returns (r: Found)
    requires Excludes(q) && ByTail(q) && sort == IndexFor(q) && NameOf(sort) == sort
    requires below == BelowOf(q, LimitsOf(q)) && above == AboveOf(q, LimitsOf(q))
    requires o.fields == FieldsFor(q) && o.Valid(docs) && AllHave(docs, sort, o.Entries())
    ensures r.Lost? <==> !(Opens(q, docs, below, o.Entries()) && Opens(q, docs, above, o.Entries()))
    ensures !r.Failed? && (r.Ids? ==> r.ids == Limited(q.limit, Matching(docs, q, o.Entries())))
  {
    hide *;
    TailFields(q);
    RangeOpens(q, docs, below, o.Entries());
    RangeOpens(q, docs, above, o.Entries());
    var a := OpenCursor(o, docs, CursorFor(sort, below));
    if a == null { return Lost; }
    var b := OpenCursor(o, docs, CursorFor(sort, above));
    if b == null { return Lost; }
    AreJustOpened(q, o, docs, a, b);
    var ids := MergeOpened(q, o, docs, a, b);
    r := Ids(ids);
  }

  /** All the merge of the two cursors needs and gives. */
  lemma {:induction false} TailPlan(q: Query, docs: Docs, c: seq<DocId>) returns (u: seq<DocId>)
    requires Excludes(q) && ByTail(q) && AllHave(docs, NameOf(IndexFor(q)), c) && Sorted(FieldsFor(q), docs, c)
    ensures EndsWithId(FieldsFor(q)) && 1 <= q.limit && SameHead(FieldsFor(q), docs, TailLists(q, docs, c))
    ensures M.IsUnion(FieldsFor(q), docs, TailLists(q, docs, c), u)
    ensures M.Take(Some(q.limit), u) == Limited(q.limit, Matching(docs, q, c))
    ensures TailLists(q, docs, c)[0] == Answer(FieldsFor(q), docs, CursorFor(IndexFor(q), BelowOf(q, LimitsOf(q))), c)
    ensures TailLists(q, docs, c)[1] == Answer(FieldsFor(q), docs, CursorFor(IndexFor(q), AboveOf(q, LimitsOf(q))), c)
  {
    TailFields(q);
    TailHead(q, docs, c);
    u := TailAnswer(q, docs, c);
    ByTailForward(q);
    hide Answer, Chosen, AllHave, Sorted, Answerable, FieldsFor, IndexFor, SameHead, Matching, M.IsUnion, M.Take;
    CursorGives(q, docs, BelowOf(q, LimitsOf(q)), c);
    CursorGives(q, docs, AboveOf(q, LimitsOf(q)), c);
  }

  lemma {:induction false} RangeOpens(q: Query, docs: Docs, l: Limits, c: seq<DocId>)
    requires ByTail(q)
    ensures q.range != [] && !CursorFor(IndexFor(q), l).reverse
    ensures Opens(q, docs, l, c) <==> Startable(FieldsFor(q), docs, CursorFor(IndexFor(q), l), c)
  {
    hide Startable;
    ByTailForward(q);
  }

  lemma {:induction false} AreJustOpened(q: Query, o: BPT, docs: Docs, a: Cursor, b: Cursor)
    requires q.range != [] && o.fields == FieldsFor(q) && o.Valid(docs)
    requires AllHave(docs, NameOf(IndexFor(q)), o.Entries())
    requires a.index == o && a.docs == docs && a.opt == CursorFor(IndexFor(q), BelowOf(q, LimitsOf(q))) && a.Valid()
    requires a.given == []
    requires b.index == o && b.docs == docs && b.opt == CursorFor(IndexFor(q), AboveOf(q, LimitsOf(q))) && b.Valid()
    requires b.given == []
    ensures JustOpened(q, o, docs, a, b)
  {
    hide BPT.Valid, BPT.Entries, Cursor.Valid, CursorFor, AllHave, IndexFor, FieldsFor, BelowOf, AboveOf, LimitsOf;
  }

  /** Two cursors that were just opened over the ranges of a query. */
  ghost predicate JustOpened(q: Query, o: BPT, docs: Docs, a: Cursor, b: Cursor)
    requires q.range != []
    reads a, b, o
  {
    && o.fields == FieldsFor(q) && o.Valid(docs) && AllHave(docs, NameOf(IndexFor(q)), o.Entries())
    && Unused(a, o, docs, CursorFor(IndexFor(q), BelowOf(q, LimitsOf(q))))
    && Unused(b, o, docs, CursorFor(IndexFor(q), AboveOf(q, LimitsOf(q))))
  }

  lemma {:induction false} PlanOpened(q: Query, o: BPT, docs: Docs, a: Cursor, b: Cursor)
      returns (u: seq<DocId>, all: seq<seq<DocId>>)
    requires Excludes(q) && ByTail(q) && JustOpened(q, o, docs, a, b) && a != b
    ensures EndsWithId(o.fields) && SameHead(o.fields, docs, all)
    ensures Agree([a, b], o.fields, docs, all, seq(|all|, _ => 0))
    ensures M.IsUnion(o.fields, docs, all, u) && 1 <= q.limit
    ensures M.Take(Some(q.limit), u) == Limited(q.limit, Matching(docs, q, o.Entries()))
  {
    ghost var c := o.Entries();
    var x, y := CursorFor(IndexFor(q), BelowOf(q, LimitsOf(q))), CursorFor(IndexFor(q), AboveOf(q, LimitsOf(q)));
    assert Sorted(FieldsFor(q), docs, c) && FitsAll(o.fields, x) && FitsAll(o.fields, y);
    all := TailLists(q, docs, c);
    assert |all| == 2 && all == [all[0], all[1]];
    hide *;
    u := TailPlan(q, docs, c);
    AgreeTwo(a, b, o, docs, x, y, all);
  }

  method MergeOpened(q: Query, o: BPT, docs: Docs, a: Cursor, b: Cursor) returns (ids: seq<DocId>)
    requires Excludes(q) && ByTail(q) && JustOpened(q, o, docs, a, b) && a != b
    modifies a, b
    ensures ids == Limited(q.limit, Matching(docs, q, o.Entries()))
  {
    hide *;
    ghost var u, all := PlanOpened(q, o, docs, a, b);
    ids := PRanges([a, b], o.fields, docs, Some(q.limit), true, all);
  }

  /** A cursor that has given nothing yet. */
  ghost predicate Unused(cur: Cursor, o: BPT, docs: Docs, opt: RangeOpt)
    reads cur, o
  {
    cur.index == o && cur.docs == docs && cur.opt == opt && cur.Valid() && cur.given == []
  }

  lemma {:induction false} AgreeTwo(a: Cursor, b: Cursor, o: BPT, docs: Docs, x: RangeOpt, y: RangeOpt,
      all: seq<seq<DocId>>)
    requires a != b && Unused(a, o, docs, x) && Unused(b, o, docs, y)
    requires FitsAll(o.fields, x) && FitsAll(o.fields, y)
    requires all == [Answer(o.fields, docs, x, o.Entries()), Answer(o.fields, docs, y, o.Entries())]
    ensures Agree([a, b], o.fields, docs, all, seq(|all|, _ => 0))
  {
    hide Answer, BPT.Valid, BPT.Entries;
    var cs := [a, b];
    forall k | 0 <= k < 2 ensures Stage(cs[k], o.fields, docs, all[k], 0) {
      assert cs[k] == if k == 0 then a else b;
    }
  }

  // ----- queries

  /** The clauses make a query that has an index, and the index is there. */
  ghost predicate Asks(k: Indexer, cs: seq<Clause>)
    reads k`indexes
  {
    && Legal(cs) && Sortable(Asked(cs)) && OnOtherField(Asked(cs))
    && (|IndexFor(Asked(cs))| <= 1 || IndexFor(Asked(cs)) in k.indexes)
  }

  lemma {:induction false} ServedIs(k: Indexer, sort: IndexName)
    ensures Served(k, sort) <==> |sort| <= 1 || sort in k.indexes
  {
  }

  /** Its answer comes from cursors of which one finds no place to start from. */
  ghost predicate Misses(k: Indexer, q: Query)
    reads k`docs, k`trees, k.trees.Values
  {
    ByTail(q) && !Starting(k, q)
  }

  method Execute(k: Indexer, q: Query, sort: IndexName, byTail: bool, request: Request) returns (r: Found)
    requires k.Valid() && Answerable(q) && sort == IndexFor(q) && byTail == ByTail(q)
    requires request == if q.range != [] && q.range[0].cmp.Ne? then
      Two(BelowOf(q, LimitsOf(q)), AboveOf(q, LimitsOf(q))) else One(LimitsOf(q))
    modifies k`trees
    ensures k.Valid() && k.docs == old(k.docs) && forall n {:trigger k.Entries(n)} :: k.Entries(n) == old(k.Entries(n))
    ensures r.Failed? <==> !Served(k, sort)
    ensures r.Lost? <==> Served(k, sort) && Misses(k, q)
    ensures r.Ids? ==> Right(k, q, r.ids)
  {
    hide Indexer.Valid, Indexer.Entries, Right, Answerable, LimitsOf, Served, IndexFor, BelowOf, AboveOf, Starting;
    match request {
      case One(one) => r := AskOne(k, q, sort, one);
      case Two(below, above) =>
        if byTail {
          r := AskTail(k, q, sort, below, above);
        } else {
          r := AskTwo(k, q, sort, below, above);
        }
    }
  }

  /** Answers a query, if it makes sense and has its index: the first documents, up to the
      limit, that satisfy it, of those the index lists, in the order of the index. */
  method Get(k: Indexer, cs: seq<Clause>) returns (r: Found)
    requires k.Valid()
    modifies k`trees
    ensures k.Valid() && k.docs == old(k.docs) && k.indexes == old(k.indexes)
    ensures forall n {:trigger k.Entries(n)} :: k.Entries(n) == old(k.Entries(n))
    ensures r.Failed? <==> !Asks(k, cs)
    ensures r.Lost? <==> Asks(k, cs) && Misses(k, Asked(cs))
    ensures r.Ids? ==> Right(k, Asked(cs), r.ids)
    ensures r.Ids? ==> InOrder(Sorts(cs), k.docs, r.ids) && |r.ids| <= LimitIn(cs) <= 1000
  {
    hide Indexer.Valid, Indexer.Entries, Right, Asked, Legal, LimitsOf, Sortable, OnOtherField, Served, IndexFor,
        ByTail, BelowOf, AboveOf, Misses;
    var parsed := Parse(cs);
    if parsed.Err? { return Failed(parsed.reason); }
    var q := parsed.value;
    LegalAsked(cs, q);
    var sort, byTail := CheckSort(q);
    if sort.Err? { return Failed(sort.reason); }
    var l := CheckStartEnd(q);
    if l.Err? { return Failed(l.reason); }
    var request := BuildQueries(q, l.value);
    r := Execute(k, q, sort.value, byTail, request);
    ServedIs(k, sort.value);
    if r.Ids? { AnswerInOrder(k, cs, q, r.ids); }
  }

  lemma {:induction false} AnswerInOrder(k: Indexer, cs: seq<Clause>, q: Query, ids: seq<DocId>)
    requires k.Valid() && q == Asked(cs) && Answerable(q) && Right(k, q, ids)
    ensures InOrder(Sorts(cs), k.docs, ids) && |ids| <= LimitIn(cs) <= 1000
  {
    RightSize(k, q, ids);
    hide Indexer.Valid, Right, Answerable, InOrder;
    RightInOrder(k, q, ids);
  }

  lemma {:induction false} RightSize(k: Indexer, q: Query, ids: seq<DocId>)
    requires Answerable(q) && Right(k, q, ids)
    ensures |ids| <= q.limit <= 1000
  {
    hide Indexer.Entries, Matching;
  }
}
