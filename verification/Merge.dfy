/** Merging several ascending cursors into one list without duplicates, dropping a cursor
    as soon as it has passed the last place the limit leaves room for. */
module Merge {
  import opened Lists
  import opened SortOrder
  import opened TreeInvariant
  import opened LeafOrder

  /** x comes before y. */
  ghost predicate Before(fields: seq<SortField>, docs: Docs, x: DocId, y: DocId)
  {
    Comp(fields, KeyOf(fields, docs, x), KeyOf(fields, docs, y), false) == 1
  }

  lemma {:induction false} BeforeTotal(fields: seq<SortField>, docs: Docs, x: DocId, y: DocId)
    requires EndsWithId(fields)
    ensures Comp(fields, KeyOf(fields, docs, x), KeyOf(fields, docs, y), false) == 0 <==> x == y
    ensures Comp(fields, KeyOf(fields, docs, x), KeyOf(fields, docs, y), false) == -1 <==> Before(fields, docs, y, x)
    ensures !(Before(fields, docs, x, y) && Before(fields, docs, y, x)) && !Before(fields, docs, x, x)
  {
    var a, b := KeyOf(fields, docs, x), KeyOf(fields, docs, y);
    CompIsTotalOrder(fields, a, b, a, false);
    CompIsTotalOrder(fields, a, a, a, false);
    if a == b { KeysDiffer(fields, docs, x, y); }
  }

  lemma {:induction false} BeforeTransitive(fields: seq<SortField>, docs: Docs, x: DocId, y: DocId, z: DocId)
    requires Before(fields, docs, x, y) && (Before(fields, docs, y, z) || y == z)
    ensures Before(fields, docs, x, z)
  {
    CompIsTotalOrder(fields, KeyOf(fields, docs, x), KeyOf(fields, docs, y), KeyOf(fields, docs, z), false);
  }

  /** How two documents compare by a list of fields. */
  function Compare(fields: seq<SortField>, docs: Docs, x: DocId, y: DocId): int
  {
    Comp(fields, KeyOf(fields, docs, x), KeyOf(fields, docs, y), false)
  }

  ghost predicate PairInOrder(fields: seq<SortField>, docs: Docs, c: seq<DocId>, i: int, j: int)
  {
    0 <= i < j < |c| ==> Before(fields, docs, c[i], c[j])
  }

  ghost predicate Ascending(fields: seq<SortField>, docs: Docs, c: seq<DocId>)
  {
    forall i, j {:trigger PairInOrder(fields, docs, c, i, j)} :: PairInOrder(fields, docs, c, i, j)
  }

  /** Index contents, and so the cursors over them, are ascending. */
  lemma {:induction false} SortedAscends(fields: seq<SortField>, docs: Docs, c: seq<DocId>)
    requires Sorted(fields, docs, c)
    ensures Ascending(fields, docs, c)
  {
    forall i, j ensures PairInOrder(fields, docs, c, i, j) { assert Precedes(fields, docs, c, i, j); }
  }

  // ----- the sorted union

  ghost predicate InSome(all: seq<seq<DocId>>, x: DocId)
  {
    exists k {:trigger all[k]} :: 0 <= k < |all| && x in all[k]
  }

  /** u lists the documents of all cursors in order, each once. */
  ghost predicate IsUnion(fields: seq<SortField>, docs: Docs, all: seq<seq<DocId>>, u: seq<DocId>)
  {
    Ascending(fields, docs, u) && forall x {:trigger x in u} {:trigger InSome(all, x)} :: x in u <==> InSome(all, x)
  }

  function Take<T>(limit: Option<nat>, xs: seq<T>): seq<T>
  {
    if limit.Some? && limit.value < |xs| then xs[..limit.value] else xs
  }

  // ----- putting a document in its place

  /** Where x belongs in an ascending list, scanning from the end with an order that places
      x like the full one: the number of elements before it, and whether it is there already. */
  method PlaceOf(fields: seq<SortField>, sorter: seq<SortField>, docs: Docs, res: seq<DocId>, x: DocId)
      returns (at: nat, found: bool)
    requires EndsWithId(fields) && Ascending(fields, docs, res) && PlacesAlike(fields, sorter, docs, res, x)
    ensures at <= |res| && (found <==> x in res)
    ensures !found ==> FitsIn(fields, docs, res, x, at)
  {
    at, found := |res|, false;
    while at > 0
      invariant at <= |res|
      invariant forall i {:trigger res[i]} :: at <= i < |res| ==> Before(fields, docs, x, res[i])
    {
      var c := Compare(sorter, docs, x, res[at - 1]);
      BeforeTotal(fields, docs, x, res[at - 1]);
      if c == 0 { return at, true; }
      if c < 0 { break; }
      at := at - 1;
    }
    forall i | 0 <= i < at ensures Before(fields, docs, res[i], x) {
      if i < at - 1 {
        assert PairInOrder(fields, docs, res, i, at - 1);
        BeforeTransitive(fields, docs, res[i], res[at - 1], x);
      }
    }
    forall i | 0 <= i < |res| ensures res[i] != x { BeforeTotal(fields, docs, x, res[i]); }
  }

  ghost predicate PlacesAlike(fields: seq<SortField>, sorter: seq<SortField>, docs: Docs, res: seq<DocId>, x: DocId)
  {
    forall i {:trigger res[i]} :: 0 <= i < |res| ==>
        Compare(sorter, docs, x, res[i]) == Compare(fields, docs, x, res[i])
  }

  /** x comes after exactly the first `at` elements. */
  ghost predicate FitsIn(fields: seq<SortField>, docs: Docs, res: seq<DocId>, x: DocId, at: nat)
  {
    forall i {:trigger res[i]} :: 0 <= i < |res| ==>
        if i < at then Before(fields, docs, res[i], x) else Before(fields, docs, x, res[i])
  }

  lemma {:induction false} StaysAscending(fields: seq<SortField>, docs: Docs, res: seq<DocId>, x: DocId, at: nat)
    requires Ascending(fields, docs, res) && at <= |res| && FitsIn(fields, docs, res, x, at)
    ensures Ascending(fields, docs, res[..at] + [x] + res[at..])
  {
    var r := res[..at] + [x] + res[at..];
    forall i, j ensures PairInOrder(fields, docs, r, i, j) {
      assert PairInOrder(fields, docs, res, if i < at then i else i - 1, if j < at then j else j - 1);
    }
  }

  /** The element at a fixed place moves forward only. */
  lemma {:induction false} BorderMoves(fields: seq<SortField>, docs: Docs, res: seq<DocId>, x: DocId, at: nat, b: nat,
      y: DocId)
    requires Ascending(fields, docs, res) && at <= |res| && b < |res| && Before(fields, docs, res[b], y)
    requires FitsIn(fields, docs, res, x, at)
    ensures Before(fields, docs, (res[..at] + [x] + res[at..])[b], y)
  {
    var r := res[..at] + [x] + res[at..];
    if b == at {
      assert r[b] == x && Before(fields, docs, x, res[b]);
      BeforeTransitive(fields, docs, x, res[b], y);
    } else if b > at {
      assert r[b] == res[b - 1] && PairInOrder(fields, docs, res, b - 1, b);
      BeforeTransitive(fields, docs, res[b - 1], res[b], y);
    }
  }

  // ----- the merge

  /** A cursor still taking part, and the document it gave last. */
  datatype Cur = Cur(id: nat, val: Option<DocId>)

  ghost predicate Taken(all: seq<seq<DocId>>, pos: seq<nat>, x: DocId)
    requires |pos| == |all|
  {
    exists k, j {:trigger all[k][j]} :: 0 <= k < |all| && 0 <= j < pos[k] && j < |all[k]| && all[k][j] == x
  }

  /** Whatever cursor k has left comes after the place the limit ends at. */
  ghost predicate PastBorder(fields: seq<SortField>, docs: Docs, res: seq<DocId>, limit: Option<nat>, rest: seq<DocId>)
  {
    limit.Some? && 1 <= limit.value <= |res| && forall y {:trigger y in rest} :: y in rest ==>
        Before(fields, docs, res[limit.value - 1], y)
  }

  ghost predicate Finished(fields: seq<SortField>, docs: Docs, all: seq<seq<DocId>>, pos: seq<nat>, res: seq<DocId>,
      limit: Option<nat>, k: nat)
    requires |pos| == |all| && k < |all| && pos[k] <= |all[k]|
  {
    pos[k] == |all[k]| || PastBorder(fields, docs, res, limit, all[k][pos[k]..])
  }

  ghost predicate Inside(all: seq<seq<DocId>>, pos: seq<nat>)
  {
    |pos| == |all| && forall k {:trigger pos[k]} :: 0 <= k < |all| ==> pos[k] <= |all[k]|
  }

  /** What cursor k gives next. */
  ghost function Upcoming(all: seq<seq<DocId>>, pos: seq<nat>, k: nat): Option<DocId>
    requires |pos| == |all| && k < |all|
  {
    if pos[k] < |all[k]| then Some(all[k][pos[k]]) else None
  }

  ghost predicate Active(curs: seq<Cur>, k: nat)
  {
    exists c {:trigger curs[c]} :: 0 <= c < |curs| && curs[c].id == k
  }

  ghost predicate Merging(fields: seq<SortField>, docs: Docs, all: seq<seq<DocId>>, limit: Option<nat>, curs: seq<Cur>,
      pos: seq<nat>, res: seq<DocId>)
  {
    && Inside(all, pos) && Ascending(fields, docs, res)
    && (forall x {:trigger x in res} {:trigger Taken(all, pos, x)} :: x in res <==> Taken(all, pos, x))
    && (forall c {:trigger curs[c]} :: 0 <= c < |curs| ==> curs[c].id < |all|)
    && (forall k: nat {:trigger Active(curs, k)} :: k < |all| && !Active(curs, k) ==>
      Finished(fields, docs, all, pos, res, limit, k))
  }

  // ----- one step

  /** res' is res with val in its place, or res itself if val is there already. */
  ghost predicate Placed(fields: seq<SortField>, docs: Docs, res: seq<DocId>, val: DocId, res': seq<DocId>)
  {
    && Ascending(fields, docs, res') && |res'| >= |res|
    && (forall x {:trigger x in res'} {:trigger x in res} :: x in res' <==> x in res || x == val)
    && forall b: nat, y {:trigger Before(fields, docs, res'[b], y)} :: b < |res| && Before(fields, docs, res[b], y) ==>
      Before(fields, docs, res'[b], y)
  }

  method PutInPlace(fields: seq<SortField>, sorter: seq<SortField>, docs: Docs, res: seq<DocId>, val: DocId)
      returns (res': seq<DocId>)
    requires EndsWithId(fields) && Ascending(fields, docs, res) && PlacesAlike(fields, sorter, docs, res, val)
    ensures Placed(fields, docs, res, val, res')
  {
    var at, found := PlaceOf(fields, sorter, docs, res, val);
    if found {
      res' := res;
    } else {
      res' := res[..at] + [val] + res[at..];
      StaysAscending(fields, docs, res, val, at);
      forall b: nat, y | b < |res| && Before(fields, docs, res[b], y) ensures Before(fields, docs, res'[b], y) {
        BorderMoves(fields, docs, res, val, at, b, y);
      }
      forall x ensures x in res' <==> x in res || x == val {
        assert res == res[..at] + res[at..];
        assert x in res <==> x in res[..at] || x in res[at..];
      }
    }
  }

  /** What a consumed document leaves behind, whether its cursor goes on or not. */
  lemma {:induction false} MergeNext(fields: seq<SortField>, docs: Docs, all: seq<seq<DocId>>, limit: Option<nat>,
      curs: seq<Cur>, pos: seq<nat>,
      res: seq<DocId>, res': seq<DocId>, curs': seq<Cur>)
    requires Merging(fields, docs, all, limit, curs, pos, res) && curs != [] && pos[curs[0].id] < |all[curs[0].id]|
    requires Placed(fields, docs, res, all[curs[0].id][pos[curs[0].id]], res')
    requires forall c {:trigger curs'[c]} :: 0 <= c < |curs'| ==> curs'[c].id < |all|
    requires forall k: nat {:trigger Active(curs', k)} :: Active(curs, k) && k != curs[0].id ==> Active(curs', k)
    requires Active(curs', curs[0].id) || Finished(fields, docs, all, pos[curs[0].id := pos[curs[0].id] + 1], res',
      limit, curs[0].id)
    ensures Merging(fields, docs, all, limit, curs', pos[curs[0].id := pos[curs[0].id] + 1], res')
  {
    var k := curs[0].id;
    var pos' := pos[k := pos[k] + 1];
    assert Active(curs, k);
    forall a: nat | a < |all| && !Active(curs', a) ensures Finished(fields, docs, all, pos', res', limit, a) {
      if a != k {
        assert !Active(curs, a);
      }
    }
  }

  /** An exhausted cursor leaves. */
  lemma {:induction false} MergeEnds(fields: seq<SortField>, docs: Docs, all: seq<seq<DocId>>, limit: Option<nat>,
      curs: seq<Cur>, pos: seq<nat>, res: seq<DocId>)
    requires Merging(fields, docs, all, limit, curs, pos, res) && curs != [] && pos[curs[0].id] == |all[curs[0].id]|
    ensures Merging(fields, docs, all, limit, curs[1..], pos, res)
  {
    forall a: nat | a < |all| && !Active(curs[1..], a) ensures Finished(fields, docs, all, pos, res, limit, a) {
      StillActive(curs, a);
    }
  }

  lemma {:induction false} StillActive(curs: seq<Cur>, a: nat)
    requires curs != []
    ensures Active(curs, a) && a != curs[0].id ==> Active(curs[1..], a)
  {
    if Active(curs, a) && a != curs[0].id {
      var c :| 0 <= c < |curs| && curs[c].id == a;
      assert curs[1..][c - 1] == curs[c];
    }
  }

  /** Both orders compare the documents of the cursors alike. */
  ghost predicate Alike(fields: seq<SortField>, sorter: seq<SortField>, docs: Docs, all: seq<seq<DocId>>)
  {
    forall x, y {:trigger Compare(sorter, docs, x, y)} :: InSome(all, x) && InSome(all, y) ==>
        Compare(sorter, docs, x, y) == Compare(fields, docs, x, y)
  }

  lemma {:induction false} AlikeHere(fields: seq<SortField>, sorter: seq<SortField>, docs: Docs, all: seq<seq<DocId>>,
      pos: seq<nat>, res: seq<DocId>, x: DocId, k: nat)
    requires Alike(fields, sorter, docs, all) && |pos| == |all| && k < |all| && x in all[k]
    requires forall y {:trigger y in res} :: y in res ==> Taken(all, pos, y)
    ensures PlacesAlike(fields, sorter, docs, res, x)
  {
    forall i | 0 <= i < |res| ensures Compare(sorter, docs, x, res[i]) == Compare(fields, docs, x, res[i]) {
      assert res[i] in res && Taken(all, pos, res[i]);
      var a, j :| 0 <= a < |all| && 0 <= j < pos[a] && j < |all[a]| && all[a][j] == res[i];
      assert all[a][j] in all[a] && InSome(all, res[i]) && InSome(all, x);
    }
  }

  /** Documents that agree on the first field compare alike by the other fields. */
  lemma {:induction false} TailOrder(fields: seq<SortField>, docs: Docs, x: DocId, y: DocId)
    requires fields != [] && KeyOf(fields, docs, x).parts[0] == KeyOf(fields, docs, y).parts[0]
    ensures Compare(fields[1..], docs, x, y) == Compare(fields, docs, x, y)
  {
    TailFrom(fields, KeyOf(fields, docs, x), KeyOf(fields, docs, y), KeyOf(fields[1..], docs, x),
        KeyOf(fields[1..], docs, y), 0);
  }

  lemma {:induction false} TailFrom(fields: seq<SortField>, a: SortKey, b: SortKey, a': SortKey, b': SortKey, i: nat)
    requires fields != [] && |a.parts| == |b.parts| == |fields| && a'.parts == a.parts[1..] && b'.parts == b.parts[1..]
    ensures CompFrom(fields[1..], a', b', false, i) == CompFrom(fields, a, b, false, i + 1)
    decreases |fields| - i
  {
    if i + 1 < |fields| { TailFrom(fields, a, b, a', b', i + 1); }
  }

  /** Where the cursor with document val goes among the others. */
  method Reinsert(sorter: seq<SortField>, docs: Docs, curs: seq<Cur>, cur: Cur, val: DocId) returns (curs': seq<Cur>)
    ensures exists i: nat :: i <= |curs| && curs' == curs[..i] + [cur] + curs[i..]
  {
    var i := 0;
    while i < |curs|
      invariant i <= |curs|
    {
      if curs[i].val.Some? {
        if Compare(sorter, docs, val, curs[i].val.value) >= 0 {
          return curs[..i] + [cur] + curs[i..];
        }
      }
      i := i + 1;
    }
    curs' := curs + [cur];
    assert curs' == curs[..|curs|] + [cur] + curs[|curs|..];
  }

  lemma {:induction false} Reinserted(all: seq<seq<DocId>>, curs: seq<Cur>, cur: Cur, i: nat, curs': seq<Cur>)
    requires curs != [] && i <= |curs[1..]| && curs' == curs[1..][..i] + [cur] + curs[1..][i..] && cur.id == curs[0].id
    requires forall c {:trigger curs[c]} :: 0 <= c < |curs| ==> curs[c].id < |all|
    ensures forall c {:trigger curs'[c]} :: 0 <= c < |curs'| ==> curs'[c].id < |all|
    ensures forall k: nat {:trigger Active(curs', k)} :: Active(curs, k) ==> Active(curs', k)
  {
    forall c | 0 <= c < |curs'| ensures curs'[c].id < |all| {
      assert curs'[c] == if c < i then curs[c + 1] else if c == i then cur else curs[c];
    }
    forall k: nat | Active(curs, k) ensures Active(curs', k) {
      var c :| 0 <= c < |curs| && curs[c].id == k;
      assert curs'[if c == 0 then i else if c - 1 < i then c - 1 else c].id == k;
    }
  }

  lemma {:induction false} Dropped(fields: seq<SortField>, docs: Docs, c: seq<DocId>, p: nat, border: DocId,
      rest: seq<DocId>)
    requires EndsWithId(fields) && Ascending(fields, docs, c) && p < |c| && rest == c[p + 1..]
    requires Comp(fields, KeyOf(fields, docs, border), KeyOf(fields, docs, c[p]), false) >= 0
    ensures forall y {:trigger y in rest} :: y in rest ==> Before(fields, docs, border, y)
  {
    BeforeTotal(fields, docs, border, c[p]);
    forall y | y in rest ensures Before(fields, docs, border, y) {
      var j :| 0 <= j < |rest| && rest[j] == y;
      assert c[p + 1 + j] == y && PairInOrder(fields, docs, c, p, p + 1 + j);
      if border != c[p] { BeforeTransitive(fields, docs, border, c[p], y); }
    }
  }

  /** How many documents the cursors have left. */
  ghost function Left(all: seq<seq<DocId>>, pos: seq<nat>): nat
    requires Inside(all, pos)
  {
    if all == [] then 0 else
      assert pos[|all| - 1] <= |all[|all| - 1]|;
      (|all[|all| - 1]| - pos[|all| - 1]) + Left(all[..|all| - 1], pos[..|all| - 1])
  }

  lemma {:induction false} LeftNext(all: seq<seq<DocId>>, pos: seq<nat>, k: nat)
    requires Inside(all, pos) && k < |all| && pos[k] < |all[k]|
    ensures Inside(all, pos[k := pos[k] + 1]) && Left(all, pos[k := pos[k] + 1]) < Left(all, pos)
  {
    var n, pos' := |all| - 1, pos[k := pos[k] + 1];
    assert pos[n] <= |all[n]|;
    if k < n {
      LeftNext(all[..n], pos[..n], k);
      assert pos'[..n] == pos[..n][k := pos[k] + 1];
    } else {
      assert pos'[..n] == pos[..n];
    }
  }

  // ----- the result

  /** Two ascending lists agree as far as nothing the first lacks comes before its end. */
  lemma {:induction false} SamePlaces(fields: seq<SortField>, docs: Docs, res: seq<DocId>, u: seq<DocId>, n: nat,
      i: nat)
    requires EndsWithId(fields) && Ascending(fields, docs, res) && Ascending(fields, docs, u) && i < n <= |res|
    requires forall x {:trigger x in res} :: x in res ==> x in u
    requires forall y {:trigger y in u} :: y in u && y !in res ==> Before(fields, docs, res[n - 1], y)
    ensures i < |u| && u[i] == res[i]
    decreases i
  {
    forall j | 0 <= j < i ensures j < |u| && u[j] == res[j] { SamePlaces(fields, docs, res, u, n, j); }
    var x := res[i];
    assert x in res;
    var p :| 0 <= p < |u| && u[p] == x;
    if p < i { assert PairInOrder(fields, docs, res, p, i); BeforeTotal(fields, docs, x, x); }
    if p > i {
      var y := u[i];
      assert PairInOrder(fields, docs, u, i, p) && y in u;
      BeforeTotal(fields, docs, x, y);
      if y in res {
        var q :| 0 <= q < |res| && res[q] == y;
        assert PairInOrder(fields, docs, res, i, q) && PairInOrder(fields, docs, u, q, i);
        BeforeTotal(fields, docs, y, y);
      } else {
        assert PairInOrder(fields, docs, res, i, n - 1);
        if i < n - 1 { BeforeTransitive(fields, docs, x, res[n - 1], y); }
      }
    }
  }

  lemma {:induction false} SameBeginning(fields: seq<SortField>, docs: Docs, res: seq<DocId>, u: seq<DocId>, n: nat)
    requires EndsWithId(fields) && Ascending(fields, docs, res) && Ascending(fields, docs, u) && n <= |res|
    requires forall x {:trigger x in res} :: x in res ==> x in u
    requires forall y {:trigger y in u} :: y in u && y !in res && n > 0 ==> Before(fields, docs, res[n - 1], y)
    ensures n <= |u| && u[..n] == res[..n]
  {
    if n > 0 {
      forall i | 0 <= i < n ensures i < |u| && u[i] == res[i] { SamePlaces(fields, docs, res, u, n, i); }
      SamePlaces(fields, docs, res, u, n, n - 1);
    }
  }

  /** What is left out of the merged list comes after the last place within the limit. */
  lemma {:induction false} LeftOutIsLater(fields: seq<SortField>, docs: Docs, all: seq<seq<DocId>>, limit: Option<nat>,
      pos: seq<nat>, res: seq<DocId>, y: DocId)
    requires Merging(fields, docs, all, limit, [], pos, res) && InSome(all, y)
    ensures y in res || (limit.Some? && 1 <= limit.value <= |res| && Before(fields, docs, res[limit.value - 1], y))
  {
    var k :| 0 <= k < |all| && y in all[k];
    assert !Active([], k);
    var j :| 0 <= j < |all[k]| && all[k][j] == y;
    if j < pos[k] {
      assert Taken(all, pos, y);
    } else {
      var rest := all[k][pos[k]..];
      assert rest[j - pos[k]] == y && y in rest;
      assert Finished(fields, docs, all, pos, res, limit, k);
    }
  }

  /** The merged list agrees with the union up to the limit. */
  lemma {:induction false} MergedIsUnion(fields: seq<SortField>, docs: Docs, all: seq<seq<DocId>>, limit: Option<nat>,
      pos: seq<nat>, res: seq<DocId>, u: seq<DocId>)
    requires EndsWithId(fields) && Merging(fields, docs, all, limit, [], pos, res) && IsUnion(fields, docs, all, u)
    ensures Take(limit, res) == Take(limit, u)
  {
    forall x | x in res ensures x in u {
      assert Taken(all, pos, x);
      var k, j :| 0 <= k < |all| && 0 <= j < pos[k] && j < |all[k]| && all[k][j] == x;
      assert InSome(all, x);
    }
    forall y | y in u && y !in res
        ensures limit.Some? && 1 <= limit.value <= |res| && Before(fields, docs, res[limit.value - 1], y) {
      LeftOutIsLater(fields, docs, all, limit, pos, res, y);
    }
    var n := if limit.Some? && limit.value <= |res| then limit.value else |res|;
    SameBeginning(fields, docs, res, u, n);
    if !(limit.Some? && limit.value <= |res|) { SameLength(fields, docs, res, u); }
  }

  lemma {:induction false} SameLength(fields: seq<SortField>, docs: Docs, res: seq<DocId>, u: seq<DocId>)
    requires EndsWithId(fields) && Ascending(fields, docs, u)
    requires forall y {:trigger y in u} :: y in u ==> y in res
    requires |res| <= |u| && u[..|res|] == res
    ensures u == res
  {
    if |res| < |u| {
      var y := u[|res|];
      assert y in u;
      var q :| 0 <= q < |res| && res[q] == y;
      assert u[q] == u[..|res|][q];
      assert PairInOrder(fields, docs, u, q, |res|);
      BeforeTotal(fields, docs, y, y);
    }
  }

  /** There is such a union. */
  method Union(fields: seq<SortField>, docs: Docs, all: seq<seq<DocId>>) returns (u: seq<DocId>)
    requires EndsWithId(fields)
    ensures IsUnion(fields, docs, all, u)
  {
    u := [];
    for k := 0 to |all|
      invariant Ascending(fields, docs, u)
      invariant forall x {:trigger x in u} {:trigger InSome(all[..k], x)} :: x in u <==> InSome(all[..k], x)
    {
      ghost var u0 := u;
      for j := 0 to |all[k]|
        invariant Ascending(fields, docs, u) && forall x {:trigger x in u} :: x in u <==> x in u0 || x in all[k][..j]
      {
        u := PutInPlace(fields, fields, docs, u, all[k][j]);
        assert all[k][..j + 1] == all[k][..j] + [all[k][j]];
      }
      assert all[k][..|all[k]|] == all[k];
      forall x ensures x in u <==> InSome(all[..k + 1], x) { }
    }
    assert all[..|all|] == all;
  }

  lemma {:induction false} Begins(fields: seq<SortField>, docs: Docs, all: seq<seq<DocId>>, limit: Option<nat>,
      curs: seq<Cur>, pos: seq<nat>)
    requires |curs| == |pos| == |all|
    requires forall k {:trigger curs[k]} {:trigger pos[k]} :: 0 <= k < |all| ==> curs[k].id == k && pos[k] == 0
    ensures Merging(fields, docs, all, limit, curs, pos, [])
  {
    forall k: nat | k < |all| ensures Active(curs, k) { assert curs[k].id == k; }
  }

  /** The first cursor gave val, or was exhausted; it stays in if it may still matter. */
  method Step(fields: seq<SortField>, sorter: seq<SortField>, docs: Docs, ghost all: seq<seq<DocId>>,
      limit: Option<nat>, curs: seq<Cur>, ghost pos: seq<nat>, res: seq<DocId>, val: Option<DocId>)
      returns (curs': seq<Cur>, ghost pos': seq<nat>, res': seq<DocId>)
    requires EndsWithId(fields) && Merging(fields, docs, all, limit, curs, pos, res) && curs != []
    requires forall k {:trigger all[k]} :: 0 <= k < |all| ==> Ascending(fields, docs, all[k])
    requires val == Upcoming(all, pos, curs[0].id) && Alike(fields, sorter, docs, all)
    ensures Merging(fields, docs, all, limit, curs', pos', res')
    ensures pos' == if val.Some? then pos[curs[0].id := pos[curs[0].id] + 1] else pos
    ensures Left(all, pos') < Left(all, pos) || (pos' == pos && |curs'| < |curs|)
  {
    var k := curs[0].id;
    assert val.Some? ==> pos[k] < |all[k]| && val.value == all[k][pos[k]];
    if val.None? {
      MergeEnds(fields, docs, all, limit, curs, pos, res);
      return curs[1..], pos, res;
    }
    LeftNext(all, pos, k);
    AlikeHere(fields, sorter, docs, all, pos, res, val.value, k);
    pos' := pos[k := pos[k] + 1];
    res' := PutInPlace(fields, sorter, docs, res, val.value);
    var border := if limit.Some? && 1 <= limit.value <= |res'| then Some(res'[limit.value - 1]) else None;
    if border.None? || Compare(fields, docs, border.value, val.value) < 0 {
      curs' := Reinsert(sorter, docs, curs[1..], Cur(k, val), val.value);
      ghost var i: nat :| i <= |curs[1..]| && curs' == curs[1..][..i] + [Cur(k, val)] + curs[1..][i..];
      Reinserted(all, curs, Cur(k, val), i, curs');
      assert Active(curs, k) && Active(curs', k);
    } else {
      curs' := curs[1..];
      ghost var rest := all[k][pos'[k]..];
      Dropped(fields, docs, all[k], pos[k], border.value, rest);
      assert PastBorder(fields, docs, res', limit, rest);
      assert Finished(fields, docs, all, pos', res', limit, k);
      forall a: nat | Active(curs, a) && a != k ensures Active(curs', a) { StillActive(curs, a); }
    }
    MergeNext(fields, docs, all, limit, curs, pos, res, res', curs');
  }
}
