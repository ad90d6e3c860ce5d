/** The order of an answer: the index chosen for a query lists documents in the order the
    clauses ask for. */
module AnswerOrder {
  import opened Lists
  import opened SortOrder
  import opened TreeInvariant
  import opened Ranges
  import opened Bpt
  import opened Indexer
  import opened Parser
  import opened Planner
  import M = Merge

  // ----- the documents of an answer

  lemma {:induction false} MatchingAscends(fields: seq<SortField>, docs: Docs, q: Query, c: seq<DocId>)
    requires M.Ascending(fields, docs, c)
    ensures M.Ascending(fields, docs, Matching(docs, q, c))
  {
    hide Satisfies, M.Before;
    if c != [] {
      var r, s := Matching(docs, q, c[1..]), Matching(docs, q, c);
      forall i, j ensures M.PairInOrder(fields, docs, c[1..], i, j) {
        assert M.PairInOrder(fields, docs, c, i + 1, j + 1);
      }
      MatchingAscends(fields, docs, q, c[1..]);
      MatchingMembers(docs, q, c[1..]);
      forall i, j ensures M.PairInOrder(fields, docs, s, i, j) {
        var d := |s| - |r|;
        assert M.PairInOrder(fields, docs, r, i - d, j - d);
        if 0 <= i < j < |s| && i < d {
          assert s[j] == r[j - d] && r[j - d] in r && s[j] in c[1..];
          var k :| 0 <= k < |c[1..]| && c[1..][k] == s[j];
          assert M.PairInOrder(fields, docs, c, 0, k + 1);
        }
      }
    }
  }

  lemma {:induction false} MatchingMembers(docs: Docs, q: Query, ids: seq<DocId>)
    ensures forall x {:trigger x in Matching(docs, q, ids)} ::
      x in Matching(docs, q, ids) <==> x in ids && x in docs && Satisfies(x, docs[x], q)
  {
    hide Satisfies;
    if ids != [] { MatchingMembers(docs, q, ids[1..]); }
  }

  /** All documents an unlimited answer would have. */
  ghost function Whole(k: Indexer, q: Query): seq<DocId>
    reads k`docs, k`trees, k.trees.Values
  {
    Matching(k.docs, Turned(q), Ordered(IndexFor(q), k.Entries(NameOf(IndexFor(q)))))
  }

  lemma {:induction false} MatchingConcat(docs: Docs, q: Query, a: seq<DocId>, b: seq<DocId>)
    ensures Matching(docs, q, a + b) == Matching(docs, q, a) + Matching(docs, q, b)
  {
    hide Satisfies;
    if a == [] {
      assert a + b == b;
    } else {
      assert (a + b)[1..] == a[1..] + b;
      MatchingConcat(docs, q, a[1..], b);
    }
  }

  lemma {:induction false} ReversedConcat<T>(a: seq<T>, b: seq<T>)
    ensures Reversed(a + b) == Reversed(b) + Reversed(a)
  {
  }

  lemma {:induction false} MatchingReversed(docs: Docs, q: Query, c: seq<DocId>)
    ensures Matching(docs, q, Reversed(c)) == Reversed(Matching(docs, q, c))
  {
    hide Satisfies;
    if c != [] {
      MatchingReversed(docs, q, c[1..]);
      MatchingConcat(docs, q, Reversed(c[1..]), [c[0]]);
      var head := if c[0] in docs && Satisfies(c[0], docs[c[0]], q) then [c[0]] else [];
      assert Matching(docs, q, [c[0]]) == head;
      ReversedConcat(head, Matching(docs, q, c[1..]));
      assert Reversed(head) == head;
    }
  }

  /** x comes before y in the order wanted. */
  ghost predicate Sooner(docs: Docs, q: Query, x: DocId, y: DocId)
  {
    if Backwards(IndexFor(q)) then M.Before(FieldsFor(q), docs, y, x) else M.Before(FieldsFor(q), docs, x, y)
  }

  lemma {:induction false} MatchingInOrder(docs: Docs, q: Query, t: Query, c: seq<DocId>, i: nat, j: nat)
    requires M.Ascending(FieldsFor(q), docs, c) && i < j < |Matching(docs, t, Ordered(IndexFor(q), c))|
    ensures Sooner(docs, q, Matching(docs, t, Ordered(IndexFor(q), c))[i],
      Matching(docs, t, Ordered(IndexFor(q), c))[j])
  {
    hide IndexFor, FieldsFor, M.Before, M.Ascending, Matching, Backwards;
    MatchingAscends(FieldsFor(q), docs, t, c);
    MatchingReversed(docs, t, c);
    InOrderAt(FieldsFor(q), docs, Matching(docs, t, c), i, j);
  }

  lemma {:induction false} InOrderAt(fields: seq<SortField>, docs: Docs, u: seq<DocId>, i: nat, j: nat)
    requires M.Ascending(fields, docs, u) && i < j < |u|
    ensures M.Before(fields, docs, u[i], u[j]) && M.Before(fields, docs, Reversed(u)[j], Reversed(u)[i])
  {
    hide M.Before;
    assert M.PairInOrder(fields, docs, u, i, j) && M.PairInOrder(fields, docs, u, |u| - 1 - j, |u| - 1 - i);
  }

  lemma {:induction false} WholeInOrder(k: Indexer, q: Query, i: nat, j: nat)
    requires k.Valid() && i < j < |Whole(k, q)|
    ensures Sooner(k.docs, q, Whole(k, q)[i], Whole(k, q)[j])
  {
    var c := k.Entries(NameOf(IndexFor(q)));
    assert FieldsFor(q) == TreeFields(NameOf(IndexFor(q)));
    hide Indexer.Valid, Indexer.Entries, IndexFor, FieldsFor, TreeFields, NameOf, Sooner, Ordered, Matching, AllHave,
        Sorted, Turned;
    WellListed(k, IndexFor(q));
    M.SortedAscends(FieldsFor(q), k.docs, c);
    MatchingInOrder(k.docs, q, Turned(q), c, i, j);
  }

  // ----- the order the clauses ask for

  /** x does not come after y by the fields and directions given. */
  ghost predicate NotAfter(sorts: seq<SortField>, docs: Docs, x: DocId, y: DocId)
  {
    Comp(sorts, KeyOf(sorts, docs, x), KeyOf(sorts, docs, y), false) >= 0
  }

  /** Every two of the documents are different and in the order of the fields given. */
  ghost predicate InOrder(sorts: seq<SortField>, docs: Docs, ids: seq<DocId>)
  {
    forall i, j {:trigger ids[i], ids[j]} :: 0 <= i < j < |ids| ==>
      ids[i] != ids[j] && NotAfter(sorts, docs, ids[i], ids[j])
  }

  /** A document that meets the equalities and has all fields of the index. */
  ghost predicate Fitting(q: Query, docs: Docs, x: DocId)
  {
    Wants(docs, NameOf(IndexFor(q)), x)
      && forall k {:trigger q.equals[k]} :: 0 <= k < |q.equals| ==> HasEqual(x, docs[x], q.equals[k])
  }

  /** Documents that meet the equalities agree on the first fields of any list of them. */
  lemma {:induction false} EqualFields(q: Query, docs: Docs, fields: seq<SortField>, n: nat, x: DocId, y: DocId)
    requires Fitting(q, docs, x) && Fitting(q, docs, y)
    requires n <= |fields| && forall t {:trigger fields[t]} :: 0 <= t < n ==> IsEqual(q.equals, fields[t].name)
    ensures Comp(fields, KeyOf(fields, docs, x), KeyOf(fields, docs, y), false) ==
      CompFrom(fields, KeyOf(fields, docs, x), KeyOf(fields, docs, y), false, n)
    ensures n == |fields| ==> Comp(fields, KeyOf(fields, docs, x), KeyOf(fields, docs, y), false) == 0
  {
    var a, b := KeyOf(fields, docs, x), KeyOf(fields, docs, y);
    forall t | 0 <= t < n ensures a.parts[t] == b.parts[t] {
      assert IsEqual(q.equals, fields[t].name);
      var k :| 0 <= k < |q.equals| && q.equals[k].field == fields[t].name;
      assert HasEqual(x, docs[x], q.equals[k]) && HasEqual(y, docs[y], q.equals[k]);
    }
    CompSkip(fields, a, b, false, 0, n);
  }

  /** The fields of the index from the equalities on are what is left of the sort order. */
  lemma {:induction false} RestOfIndex(q: Query, fields: seq<SortField>, docs: Docs, x: DocId, y: DocId, n: nat)
    requires n <= |q.sort| && |q.equals| + (|q.sort| - n) <= |fields|
    requires forall t {:trigger q.sort[t]} :: n <= t < |q.sort| ==> fields[|q.equals| + t - n] == q.sort[t]
    ensures
      var c := CompFrom(q.sort, KeyOf(q.sort, docs, x), KeyOf(q.sort, docs, y), false, n);
      c == 0 || c == CompFrom(fields, KeyOf(fields, docs, x), KeyOf(fields, docs, y), false, |q.equals|)
  {
    var a, b := KeyOf(fields, docs, x), KeyOf(fields, docs, y);
    var c, d := KeyOf(q.sort, docs, x), KeyOf(q.sort, docs, y);
    var shift := |q.equals| - n;
    forall t | n <= t < |q.sort| ensures AlikeAt(fields, a, b, q.sort, c, d, shift, t) {
      assert fields[t + shift] == q.sort[t];
    }
    CompShift(fields, a, b, q.sort, c, d, shift, n, false);
  }

  /** Where the index lies forward, its order is the one asked for. */
  lemma {:induction false} ForwardOrder(q: Query, docs: Docs, x: DocId, y: DocId)
    requires Answerable(q) && !Backwards(IndexFor(q)) && Fitting(q, docs, x) && Fitting(q, docs, y)
    requires M.Before(FieldsFor(q), docs, x, y)
    ensures NotAfter(q.sort, docs, x, y)
  {
    hide *;
    AnswerableMeans(q);
    var fields, e := FieldsFor(q), |q.equals|;
    var n := RestIs(q);
    OrderMeans(q.sort, docs, x, y);
    OrderMeans(fields, docs, x, y);
    EqualFields(q, docs, q.sort, n, x, y);
    if n < |q.sort| {
      IndexFirst(q);
      EqualFields(q, docs, fields, e, x, y);
      forall t | n <= t < |q.sort| ensures fields[e + t - n] == q.sort[t] { assert Rest(q)[t - n] == q.sort[t]; }
      RestOfIndex(q, fields, docs, x, y, n);
    }
  }

  lemma {:induction false} AnswerableMeans(q: Query)
    requires Answerable(q)
    ensures OncePerField(q.equals) && (q.equals != [] ==> !Misplaced(q.equals, q.sort))
  {
  }

  lemma {:induction false} OrderMeans(fields: seq<SortField>, docs: Docs, x: DocId, y: DocId)
    ensures NotAfter(fields, docs, x, y) <==> Comp(fields, KeyOf(fields, docs, x), KeyOf(fields, docs, y), false) >= 0
    ensures M.Before(fields, docs, x, y) <==> Comp(fields, KeyOf(fields, docs, x), KeyOf(fields, docs, y), false) == 1
  {
  }

  /** The tree sorts by the fields of the index first. */
  lemma {:induction false} IndexFirst(q: Query)
    requires Answerable(q) && !Backwards(IndexFor(q)) && Rest(q) != []
    ensures |q.equals| + |Rest(q)| <= |FieldsFor(q)|
    ensures forall t {:trigger FieldsFor(q)[t]} :: 0 <= t < |q.equals| ==> IsEqual(q.equals, FieldsFor(q)[t].name)
    ensures forall t {:trigger Rest(q)[t]} :: 0 <= t < |Rest(q)| ==> FieldsFor(q)[|q.equals| + t] == Rest(q)[t]
  {
    var sort, fields, e := IndexFor(q), FieldsFor(q), |q.equals|;
    assert sort == EqSort(q.equals) + Rest(q);
    assert forall t {:trigger fields[t]} :: 0 <= t < |sort| ==> fields[t] == sort[t];
    forall t | 0 <= t < e ensures IsEqual(q.equals, fields[t].name) {
      assert q.equals[t].field == EqSort(q.equals)[t].name == sort[t].name;
    }
    forall t | 0 <= t < |Rest(q)| ensures fields[e + t] == Rest(q)[t] { assert sort[e + t] == Rest(q)[t]; }
  }

  /** A sole descending field is listed ascending, and answered from the end. */
  lemma {:induction false} BackwardOrder(q: Query, docs: Docs, x: DocId, y: DocId)
    requires Answerable(q) && Backwards(IndexFor(q)) && Fitting(q, docs, x) && Fitting(q, docs, y)
    requires M.Before(FieldsFor(q), docs, y, x)
    ensures NotAfter(q.sort, docs, x, y)
  {
    IsReady(q);
    var f, up := q.sort[0], SortField(q.sort[0].name, false);
    assert q.sort == IndexFor(q) == [f] && FieldsFor(q)[0] == up;
    var a, b := FieldValue(f, Some(x), docs[x]), FieldValue(f, Some(y), docs[y]);
    assert NameOf(IndexFor(q))[0] == up;
    assert a.Some? && b.Some?;
    var kx, ky := KeyOf(q.sort, docs, x), KeyOf(q.sort, docs, y);
    assert kx.parts == [a] && ky.parts == [b];
    var lx, ly := KeyOf(FieldsFor(q), docs, x), KeyOf(FieldsFor(q), docs, y);
    assert lx.parts[0] == a && ly.parts[0] == b;
    if a != b {
      ScalarTotal(a.value, b.value);
      assert Comp(FieldsFor(q), ly, lx, false) == FieldComp(false, b, a, false) == 1;
      assert Comp(q.sort, kx, ky, false) == FieldComp(true, a, b, false);
    } else {
      CompSkip(q.sort, kx, ky, false, 0, 1);
    }
  }

  /** An answer is in the order asked for. */
  lemma {:induction false} RightInOrder(k: Indexer, q: Query, ids: seq<DocId>)
    requires k.Valid() && Answerable(q) && Right(k, q, ids)
    ensures InOrder(q.sort, k.docs, ids)
  {
    var w := Whole(k, q);
    assert |ids| <= |w| && forall i {:trigger ids[i]} :: 0 <= i < |ids| ==> ids[i] == w[i];
    forall i, j | 0 <= i < j < |ids| ensures ids[i] != ids[j] && NotAfter(q.sort, k.docs, ids[i], ids[j]) {
      PairInOrder(k, q, i, j);
    }
  }

  lemma {:induction false} PairInOrder(k: Indexer, q: Query, i: nat, j: nat)
    requires k.Valid() && Answerable(q) && i < j < |Whole(k, q)|
    ensures Whole(k, q)[i] != Whole(k, q)[j] && NotAfter(q.sort, k.docs, Whole(k, q)[i], Whole(k, q)[j])
  {
    hide *;
    var x, y := Whole(k, q)[i], Whole(k, q)[j];
    WholeInOrder(k, q, i, j);
    WholeFits(k, q, i);
    WholeFits(k, q, j);
    SoonerIs(k.docs, q, x, y);
    if Backwards(IndexFor(q)) { BackwardOrder(q, k.docs, x, y); } else { ForwardOrder(q, k.docs, x, y); }
  }

  lemma {:induction false} SoonerIs(docs: Docs, q: Query, x: DocId, y: DocId)
    requires Sooner(docs, q, x, y)
    ensures x != y && if Backwards(IndexFor(q)) then M.Before(FieldsFor(q), docs, y, x)
      else M.Before(FieldsFor(q), docs, x, y)
  {
    hide IndexFor, FieldsFor;
    var k := KeyOf(FieldsFor(q), docs, x);
    CompIsTotalOrder(FieldsFor(q), k, k, k, false);
  }

  lemma {:induction false} WholeFits(k: Indexer, q: Query, i: nat)
    requires k.Valid() && i < |Whole(k, q)|
    ensures Fitting(q, k.docs, Whole(k, q)[i])
  {
    hide Indexer.Valid, Indexer.Entries, IndexFor, NameOf, Has, HasEqual, Sorted;
    var c := k.Entries(NameOf(IndexFor(q)));
    var x := Whole(k, q)[i];
    WellListed(k, IndexFor(q));
    MatchingMembers(k.docs, Turned(q), Ordered(IndexFor(q), c));
    assert x in Whole(k, q) && x in Ordered(IndexFor(q), c);
    OrderedMembers(c, IndexFor(q), x);
    assert Turned(q).equals == q.equals;
  }

  lemma {:induction false} OrderedMembers(c: seq<DocId>, sort: IndexName, x: DocId)
    ensures x in Ordered(sort, c) <==> x in c
  {
    var r := Reversed(c);
    if x in c {
      var i :| 0 <= i < |c| && c[i] == x;
      assert r[|c| - 1 - i] == x;
    }
  }
}
