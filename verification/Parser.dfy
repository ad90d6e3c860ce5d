/** Queries: from the clauses a caller writes to the index that answers them and the
    bounds to ask it for. */
module Parser {
  import opened Lists
  import opened SortOrder
  import opened Indexer

  datatype Cmp = Lt | Le | Gt | Ge | Ne

  /** One clause of a query. */
  datatype Clause =
    | Limit(n: int)
    | Equal(field: string, value: Scalar)
    | Compare(field: string, cmp: Cmp, value: Scalar)
    | SortBy(field: string, desc: bool)

  datatype Eq = Eq(field: string, value: Scalar)

  datatype Cond = Cond(field: string, cmp: Cmp, value: Scalar)

  /** A query taken apart: equalities, conditions on one more field, sort order, limit. */
  datatype Query = Query(equals: seq<Eq>, range: seq<Cond>, sort: seq<SortField>, limit: int)

  datatype Outcome<T> = Ok(value: T) | Err(reason: string)

  // ----- taking a query apart

  function Equals(cs: seq<Clause>): seq<Eq>
  {
    if cs == [] then []
    else
      var last := cs[|cs| - 1];
      Equals(cs[..|cs| - 1]) + if last.Equal? then [Eq(last.field, last.value)] else []
  }

  function Conds(cs: seq<Clause>): seq<Cond>
  {
    if cs == [] then []
    else
      var last := cs[|cs| - 1];
      Conds(cs[..|cs| - 1]) + if last.Compare? then [Cond(last.field, last.cmp, last.value)] else []
  }

  function Sorts(cs: seq<Clause>): seq<SortField>
  {
    if cs == [] then []
    else
      var last := cs[|cs| - 1];
      Sorts(cs[..|cs| - 1]) + if last.SortBy? then [SortField(last.field, last.desc)] else []
  }

  /** The limit given, or the default. */
  function LimitIn(cs: seq<Clause>): int
  {
    if cs == [] then 1000
    else if cs[|cs| - 1].Limit? then cs[|cs| - 1].n
    else LimitIn(cs[..|cs| - 1])
  }

  function Asked(cs: seq<Clause>): Query
  {
    Query(Equals(cs), Conds(cs), Sorts(cs), LimitIn(cs))
  }

  /** The i-th clause, if it is for sorting, is an entry of the sort order, as written, and
      has as many entries before it as there are such clauses before. */
  lemma {:induction false} SortsListed(cs: seq<Clause>, i: nat)
    requires i < |cs| && cs[i].SortBy?
    ensures |Sorts(cs[..i])| < |Sorts(cs)|
    ensures Sorts(cs)[|Sorts(cs[..i])|] == SortField(cs[i].field, cs[i].desc)
    decreases |cs|
  {
    if i < |cs| - 1 {
      assert cs[..|cs| - 1][..i] == cs[..i] && cs[..|cs| - 1][i] == cs[i];
      SortsListed(cs[..|cs| - 1], i);
    }
  }

  /** There are no other entries. */
  lemma {:induction false} SortsFrom(cs: seq<Clause>, m: nat) returns (i: int)
    requires m < |Sorts(cs)|
    ensures 0 <= i < |cs| && cs[i].SortBy? && |Sorts(cs[..i])| == m
    ensures Sorts(cs)[m] == SortField(cs[i].field, cs[i].desc)
    decreases |cs|
  {
    var front := cs[..|cs| - 1];
    if m < |Sorts(front)| {
      i := SortsFrom(front, m);
      assert front[..i] == cs[..i] && front[i] == cs[i];
    } else {
      i := |cs| - 1;
    }
  }

  /** The limit is the one given, or 1000. */
  lemma {:induction false} LimitIs(cs: seq<Clause>)
    ensures forall i {:trigger cs[i]} :: 0 <= i < |cs| && cs[i].Limit? && OneLimit(cs) ==> LimitIn(cs) == cs[i].n
    ensures (forall i {:trigger cs[i]} :: 0 <= i < |cs| ==> !cs[i].Limit?) ==> LimitIn(cs) == 1000
  {
    if cs != [] {
      var n := |cs| - 1;
      var front := cs[..n];
      assert forall i {:trigger front[i]} :: 0 <= i < n ==> front[i] == cs[i];
      assert forall i {:trigger cs[i]} :: 0 <= i < n ==> front[i] == cs[i];
      LimitIs(front);
    }
  }

  /** What one more clause adds. */
  lemma {:induction false} OneMore(cs: seq<Clause>, c: Clause)
    ensures Equals(cs + [c]) == Equals(cs) + if c.Equal? then [Eq(c.field, c.value)] else []
    ensures Conds(cs + [c]) == Conds(cs) + if c.Compare? then [Cond(c.field, c.cmp, c.value)] else []
    ensures Sorts(cs + [c]) == Sorts(cs) + if c.SortBy? then [SortField(c.field, c.desc)] else []
    ensures LimitIn(cs + [c]) == if c.Limit? then c.n else LimitIn(cs)
  {
    assert (cs + [c])[..|cs|] == cs;
  }

  predicate Upper(c: Cmp) { c.Lt? || c.Le? }

  predicate Lower(c: Cmp) { c.Gt? || c.Ge? }

  predicate OnField(range: seq<Cond>, f: string)
  {
    forall i {:trigger range[i]} :: 0 <= i < |range| ==> range[i].field == f
  }

  /** No equality twice on a field; the conditions are one != or at most one bound from
      below and one from above, all on the same field. */
  ghost predicate WellFormed(q: Query)
  {
    && (forall i, j {:trigger q.equals[i], q.equals[j]} :: 0 <= i < j < |q.equals| ==>
      q.equals[i].field != q.equals[j].field)
    && (q.range != [] ==> OnField(q.range, q.range[0].field))
    && (|q.range| > 1 ==> forall i {:trigger q.range[i]} :: 0 <= i < |q.range| ==> !q.range[i].cmp.Ne?)
    && (forall i, j {:trigger q.range[i], q.range[j]} :: 0 <= i < j < |q.range| ==>
      Upper(q.range[i].cmp) != Upper(q.range[j].cmp))
    && 1 <= q.limit <= 1000
  }

  predicate EqualsFirst(cs: seq<Clause>)
  {
    forall i {:trigger cs[i]} :: 0 <= i < |cs| && cs[i].Equal? ==> Conds(cs[..i]) == []
  }

  predicate OneLimit(cs: seq<Clause>)
  {
    forall i, j {:trigger cs[i], cs[j]} :: 0 <= i < j < |cs| ==> !(cs[i].Limit? && cs[j].Limit?)
  }

  /** The clauses that make a query. */
  ghost predicate Legal(cs: seq<Clause>)
  {
    WellFormed(Asked(cs)) && EqualsFirst(cs) && OneLimit(cs)
  }

  predicate HasLimit(cs: seq<Clause>)
  {
    exists i {:trigger cs[i]} :: 0 <= i < |cs| && cs[i].Limit?
  }

  predicate HasCmp(range: seq<Cond>, upper: bool)
  {
    exists i {:trigger range[i]} :: 0 <= i < |range| && !range[i].cmp.Ne? && Upper(range[i].cmp) == upper
  }

  /** One more equality. */
  method TakeEqual(q: Query, f: string, v: Scalar) returns (r: Outcome<Query>)
    requires WellFormed(q)
    ensures r.Ok? ==> WellFormed(r.value) && r.value == q.(equals := q.equals + [Eq(f, v)])
    ensures r.Ok? <==> q.range == [] && forall i {:trigger q.equals[i]} :: 0 <= i < |q.equals| ==>
      q.equals[i].field != f
  {
    if q.range != [] { return Err("== must come before inequity"); }
    for i := 0 to |q.equals|
      invariant forall j {:trigger q.equals[j]} :: 0 <= j < i ==> q.equals[j].field != f
    {
      if q.equals[i].field == f { return Err("only one == per field is allowed"); }
    }
    r := Ok(q.(equals := q.equals + [Eq(f, v)]));
  }

  /** One more condition. */
  method TakeCond(q: Query, f: string, c: Cmp, v: Scalar) returns (r: Outcome<Query>)
    requires WellFormed(q)
    ensures r.Ok? <==> WellFormed(q.(range := q.range + [Cond(f, c, v)]))
    ensures r.Ok? ==> r.value == q.(range := q.range + [Cond(f, c, v)])
  {
    CondTaken(q, f, c, v);
    if c.Ne? {
      if q.range != [] { return Err("only one inequity is allowed"); }
    } else {
      if q.range != [] && q.range[0].cmp.Ne? { return Err("only one inequity is allowed"); }
      if q.range != [] && q.range[0].field != f { return Err("inequity has to be on the same field"); }
      if HasCmp(q.range, Upper(c)) { return Err("duplicate inequity"); }
    }
    r := Ok(q.(range := q.range + [Cond(f, c, v)]));
  }

  /** When a condition can be added. */
  lemma {:induction false} CondTaken(q: Query, f: string, c: Cmp, v: Scalar)
    requires WellFormed(q)
    ensures WellFormed(q.(range := q.range + [Cond(f, c, v)])) <==>
      if c.Ne? then q.range == []
          else (q.range == [] || (!q.range[0].cmp.Ne? && q.range[0].field == f)) && !HasCmp(q.range, Upper(c))
  {
    var r, n := q.range + [Cond(f, c, v)], |q.range|;
    assert r[n] == Cond(f, c, v) && forall i {:trigger q.range[i]} :: 0 <= i < n ==> r[i] == q.range[i];
    if n > 0 { assert r[0] == q.range[0]; }
    if !c.Ne? && HasCmp(q.range, Upper(c)) {
      var i :| 0 <= i < n && !q.range[i].cmp.Ne? && Upper(q.range[i].cmp) == Upper(c);
      assert Upper(r[i].cmp) == Upper(r[n].cmp);
    } else if n == 0 || (!c.Ne? && !q.range[0].cmp.Ne? && q.range[0].field == f) {
      forall i, j | 0 <= i < j < |r| ensures Upper(r[i].cmp) != Upper(r[j].cmp) {
        assert j == n ==> q.range[i] == r[i] && !q.range[i].cmp.Ne?;
      }
    }
  }

  method TakeLimit(given: Option<int>, n: int) returns (r: Outcome<int>)
    ensures r.Ok? <==> given.None? && 1 <= n <= 1000
    ensures r.Ok? ==> r.value == n
  {
    if given.Some? { return Err("only one limit is allowed"); }
    if n > 1000 { return Err("limit cannot be above 1000"); }
    if n < 1 { return Err("limit must be a natural number"); }
    r := Ok(n);
  }

  /** Whether one more clause fits after those already taken. */
  ghost predicate FitsAfter(q: Query, limited: bool, c: Clause)
  {
    match c
    case Limit(n) => !limited && 1 <= n <= 1000
    case Equal(f, v) => q.range == [] && forall i {:trigger q.equals[i]} :: 0 <= i < |q.equals| ==>
        q.equals[i].field != f
    case Compare(f, cmp, v) => WellFormed(q.(range := q.range + [Cond(f, cmp, v)]))
    case SortBy(_, _) => true
  }

  lemma {:induction false} DefaultLimit(cs: seq<Clause>)
    requires !HasLimit(cs)
    ensures LimitIn(cs) == 1000
  {
    if cs != [] {
      assert !cs[|cs| - 1].Limit?;
      var front := cs[..|cs| - 1];
      assert forall i {:trigger front[i]} :: 0 <= i < |front| ==> front[i] == cs[i];
      DefaultLimit(cs[..|cs| - 1]);
    }
  }

  /** Clauses are legal exactly if each fits after those before it. */
  lemma {:induction false} LegalStep(cs: seq<Clause>)
    requires cs != []
    ensures var front := cs[..|cs| - 1]; Legal(cs) <==>
      Legal(front) && FitsAfter(Asked(front), HasLimit(front), cs[|cs| - 1])
    ensures var front := cs[..|cs| - 1]; HasLimit(cs) <==> HasLimit(front) || cs[|cs| - 1].Limit?
  {
    var n := |cs| - 1;
    var front, last := cs[..n], cs[n];
    assert forall i {:trigger front[i]} :: 0 <= i < n ==> front[i] == cs[i];
    assert forall i {:trigger cs[i]} :: 0 <= i < n ==> front[i] == cs[i];
    StepOrder(cs);
    if !HasLimit(front) { DefaultLimit(front); }
    var q, q' := Asked(front), Asked(cs);
    match last
    case Limit(k) =>
      assert q' == q.(limit := k);
      if HasLimit(front) {
        var i :| 0 <= i < n && front[i].Limit?;
        assert cs[i].Limit? && cs[n].Limit?;
      }
    case Equal(f, v) =>
      assert q' == q.(equals := q.equals + [Eq(f, v)]);
      EqualTaken(q, f, v);
    case Compare(f, c, v) =>
      assert q' == q.(range := q.range + [Cond(f, c, v)]);
      FewerConds(q, Cond(f, c, v));
    case SortBy(f, desc) =>
      assert q' == q.(sort := q.sort + [SortField(f, desc)]);
  }

  lemma {:induction false} StepOrder(cs: seq<Clause>)
    requires cs != []
    ensures var n := |cs| - 1; EqualsFirst(cs) <==> EqualsFirst(cs[..n]) && (cs[n].Equal? ==> Conds(cs[..n]) == [])
    ensures var n := |cs| - 1; OneLimit(cs) <==> OneLimit(cs[..n]) && !(HasLimit(cs[..n]) && cs[n].Limit?)
  {
    var n := |cs| - 1;
    var front := cs[..n];
    assert forall i {:trigger front[i]} :: 0 <= i < n ==> front[i] == cs[i] && front[..i] == cs[..i];
    assert forall i {:trigger cs[i]} :: 0 <= i < n ==> front[i] == cs[i] && front[..i] == cs[..i];
  }

  lemma {:induction false} EqualTaken(q: Query, f: string, v: Scalar)
    ensures WellFormed(q.(equals := q.equals + [Eq(f, v)])) <==> WellFormed(q) && forall i {:trigger q.equals[i]} ::
      0 <= i < |q.equals| ==> q.equals[i].field != f
  {
    var r, n := q.equals + [Eq(f, v)], |q.equals|;
    assert r[n] == Eq(f, v) && forall i {:trigger q.equals[i]} :: 0 <= i < n ==> r[i] == q.equals[i];
    assert forall i {:trigger r[i]} :: 0 <= i < n ==> r[i] == q.equals[i];
  }

  lemma {:induction false} FewerConds(q: Query, c: Cond)
    ensures WellFormed(q.(range := q.range + [c])) ==> WellFormed(q)
  {
    var r, n := q.range + [c], |q.range|;
    assert forall i {:trigger q.range[i]} :: 0 <= i < n ==> r[i] == q.range[i];
  }

  lemma {:induction false} LegalPrefix(cs: seq<Clause>, k: nat)
    requires k <= |cs| && Legal(cs)
    ensures Legal(cs[..k])
  {
    if k == |cs| {
      assert cs[..k] == cs;
    } else {
      LegalStep(cs);
      LegalPrefix(cs[..|cs| - 1], k);
      assert cs[..|cs| - 1][..k] == cs[..k];
    }
  }

  /** Takes a query apart, clause by clause. */
  method Parse(cs: seq<Clause>) returns (r: Outcome<Query>)
    ensures r.Ok? <==> Legal(cs)
    ensures r.Ok? ==> r.value == Asked(cs)
  {
    hide Legal, HasLimit;
    var q := Query([], [], [], 1000);
    var limit: Option<int> := None;
    assert Legal([]) && WellFormed(q) && !HasLimit([]) by { StartsLegal(); }
    for k := 0 to |cs|
      invariant Legal(cs[..k]) && WellFormed(q) && q == Asked(cs[..k])
      invariant limit.Some? <==> HasLimit(cs[..k])
    {
      assert cs[..k + 1][..k] == cs[..k] && cs[..k + 1][k] == cs[k];
      LegalStep(cs[..k + 1]);
      if Legal(cs) { LegalPrefix(cs, k + 1); }
      match cs[k]
      case Limit(n) =>
        var l := TakeLimit(limit, n);
        if l.Err? { return Err(l.reason); }
        limit, q := Some(n), q.(limit := n);
      case Equal(f, v) =>
        var e := TakeEqual(q, f, v);
        if e.Err? { return e; }
        q := e.value;
      case Compare(f, c, v) =>
        var e := TakeCond(q, f, c, v);
        if e.Err? { return e; }
        q := e.value;
      case SortBy(f, desc) =>
        q := q.(sort := q.sort + [SortField(f, desc)]);
      assert q == Asked(cs[..k + 1]);
      assert Legal(cs[..k + 1]);
      LegalAsked(cs[..k + 1], q);
      assert WellFormed(q);
    }
    assert cs[..|cs|] == cs;
    r := Ok(q);
  }

  lemma {:induction false} StartsLegal()
    ensures Legal([]) && WellFormed(Query([], [], [], 1000)) && !HasLimit([])
  {
  }

  lemma {:induction false} LegalAsked(cs: seq<Clause>, q: Query)
    requires Legal(cs) && q == Asked(cs)
    ensures WellFormed(q)
  {
  }

  // ----- the index a query needs

  predicate IsEqual(equals: seq<Eq>, f: string)
  {
    exists i {:trigger equals[i]} :: 0 <= i < |equals| && equals[i].field == f
  }

  predicate InSort(sort: seq<SortField>, f: string)
  {
    exists i {:trigger sort[i]} :: 0 <= i < |sort| && sort[i].name == f
  }

  /** How many of the equality fields the sort order mentions. */
  function Mentioned(equals: seq<Eq>, sort: seq<SortField>): (n: nat)
    ensures n <= |equals|
  {
    if equals == [] then 0
    else Mentioned(equals[..|equals| - 1], sort) + if InSort(sort, equals[|equals| - 1].field) then 1 else 0
  }

  /** An equality field after another one in the sort order. */
  predicate Misplaced(equals: seq<Eq>, sort: seq<SortField>)
  {
    exists i, j {:trigger sort[i], sort[j]} ::
        0 <= i < j < |sort| && !IsEqual(equals, sort[i].name) && IsEqual(equals, sort[j].name)
  }

  function EqSort(equals: seq<Eq>): (s: seq<SortField>)
    ensures |s| == |equals|
    ensures forall i {:trigger s[i]} :: 0 <= i < |s| ==> s[i] == SortField(equals[i].field, false)
  {
    seq(|equals|, i requires 0 <= i < |equals| => SortField(equals[i].field, false))
  }

  /** The sort order without as many fields at its head as there are equality fields in it. */
  function Rest(q: Query): seq<SortField>
  {
    var n := if q.equals == [] then 0 else Mentioned(q.equals, q.sort);
    if n <= |q.sort| then q.sort[n..] else []
  }

  /** How many equality fields the sort order begins with. */
  function Head(equals: seq<Eq>, sort: seq<SortField>): (h: nat)
    ensures h <= |sort| && forall t {:trigger sort[t]} :: 0 <= t < h ==> IsEqual(equals, sort[t].name)
    ensures h < |sort| ==> !IsEqual(equals, sort[h].name)
  {
    if sort == [] || !IsEqual(equals, sort[0].name) then 0
    else
      var h := Head(equals, sort[1..]);
      assert forall t {:trigger sort[t]} :: 1 <= t < |sort| ==> sort[t] == sort[1..][t - 1];
      h + 1
  }

  function Names(sort: seq<SortField>): (s: set<string>)
    ensures |s| <= |sort|
    ensures forall t {:trigger sort[t]} :: 0 <= t < |sort| ==> sort[t].name in s
    ensures forall f {:trigger f in s} :: f in s ==> InSort(sort, f)
  {
    if sort == [] then {}
    else
      var s := Names(sort[..|sort| - 1]);
      assert forall t {:trigger sort[t]} :: 0 <= t < |sort| - 1 ==> sort[t] == sort[..|sort| - 1][t];
      s + {sort[|sort| - 1].name}
  }

  /** The equality fields that the sort order mentions. */
  function MentionedNames(equals: seq<Eq>, sort: seq<SortField>): set<string>
  {
    if equals == [] then {}
    else
      MentionedNames(equals[..|equals| - 1], sort)
        + if InSort(sort, equals[|equals| - 1].field) then {equals[|equals| - 1].field} else {}
  }

  ghost predicate OncePerField(equals: seq<Eq>)
  {
    forall i, j {:trigger equals[i], equals[j]} :: 0 <= i < j < |equals| ==> equals[i].field != equals[j].field
  }

  lemma {:induction false} MentionedAre(equals: seq<Eq>, sort: seq<SortField>)
    requires OncePerField(equals)
    ensures |MentionedNames(equals, sort)| == Mentioned(equals, sort)
    ensures forall f {:trigger f in MentionedNames(equals, sort)} :: f in MentionedNames(equals, sort) <==>
      IsEqual(equals, f) && InSort(sort, f)
  {
    if equals != [] {
      var n := |equals| - 1;
      MentionedAre(equals[..n], sort);
      forall f ensures IsEqual(equals, f) <==> IsEqual(equals[..n], f) || f == equals[n].field {
        IsEqualStep(equals, f);
      }
      FreshLast(equals);
      hide InSort, IsEqual, OncePerField;
    }
  }

  lemma {:induction false} IsEqualStep(equals: seq<Eq>, f: string)
    requires equals != []
    ensures IsEqual(equals, f) <==> IsEqual(equals[..|equals| - 1], f) || f == equals[|equals| - 1].field
  {
    var n := |equals| - 1;
    assert forall i {:trigger equals[i]} :: 0 <= i < n ==> equals[..n][i] == equals[i];
    assert forall i {:trigger equals[..n][i]} :: 0 <= i < n ==> equals[..n][i] == equals[i];
  }

  lemma {:induction false} FreshLast(equals: seq<Eq>)
    requires equals != [] && OncePerField(equals)
    ensures !IsEqual(equals[..|equals| - 1], equals[|equals| - 1].field)
  {
  }

  lemma {:induction false} FewerMembers<T>(a: set<T>, b: set<T>)
    requires a <= b
    ensures |a| <= |b|
  {
    assert b == a + (b - a);
  }

  lemma {:induction false} EqualAtHead(equals: seq<Eq>, sort: seq<SortField>, i: nat)
    requires i < |sort| && IsEqual(equals, sort[i].name) && !Misplaced(equals, sort)
    ensures i < Head(equals, sort)
  {
    hide IsEqual, Head;
  }

  /** What is cut off the sort order are equality fields. */
  lemma {:induction false} MentionedAtHead(equals: seq<Eq>, sort: seq<SortField>)
    requires OncePerField(equals) && !Misplaced(equals, sort)
    ensures Mentioned(equals, sort) <= Head(equals, sort)
  {
    var h, s := Head(equals, sort), MentionedNames(equals, sort);
    MentionedAre(equals, sort);
    forall f | f in s ensures f in Names(sort[..h]) {
      assert IsEqual(equals, f) && InSort(sort, f);
      var i :| 0 <= i < |sort| && sort[i].name == f;
      EqualAtHead(equals, sort, i);
      assert sort[..h][i] == sort[i];
    }
    FewerMembers(s, Names(sort[..h]));
  }

  /** The rest of the sort order is all of it from some point on; before it are fields of equalities. */
  lemma {:induction false} RestIs(q: Query) returns (n: nat)
    requires OncePerField(q.equals) && (q.equals != [] ==> !Misplaced(q.equals, q.sort))
    ensures n <= |q.sort| && Rest(q) == q.sort[n..]
    ensures forall t {:trigger q.sort[t]} :: 0 <= t < n ==> IsEqual(q.equals, q.sort[t].name)
  {
    n := 0;
    if q.equals != [] {
      MentionedAtHead(q.equals, q.sort);
      n := Mentioned(q.equals, q.sort);
    }
  }

  /** The fields of the index: those of the equalities, the one of the conditions, then
      what the caller wants sorted by. */
  function IndexFor(q: Query): (n: IndexName)
    ensures |n| >= |q.equals| && (q.range != [] ==> |n| > |q.equals|)
  {
    EqSort(q.equals) + if q.range != [] && Rest(q) == [] then [SortField(q.range[0].field, false)] else Rest(q)
  }

  /** Which queries have such an index. */
  predicate Sortable(q: Query)
  {
    && (q.equals != [] ==> !Misplaced(q.equals, q.sort))
    && (q.range != [] && Rest(q) != [] ==> Rest(q)[0].name == q.range[0].field)
    && !(q.equals != [] && q.range != [] && q.range[0].cmp.Ne? && Rest(q) == [] && IsEqual(q.equals, q.range[0].field))
  }

  /** The conditions are not on a field of an equality. */
  predicate OnOtherField(q: Query)
  {
    !(q.equals != [] && q.range != [] && IsEqual(q.equals, q.range[0].field))
  }

  /** The sort order names no equality field twice. */
  ghost predicate EqualsOnce(q: Query)
  {
    forall i, j {:trigger q.sort[i], q.sort[j]} :: 0 <= i < j < |q.sort| && IsEqual(q.equals, q.sort[i].name) ==>
      q.sort[i].name != q.sort[j].name
  }

  /** The index has the equality fields, ascending, and then all other fields of the sort
      order as written, or the field of the conditions if there are none. */
  lemma {:induction false} IndexIs(q: Query)
    requires OncePerField(q.equals) && EqualsOnce(q) && (q.equals != [] ==> !Misplaced(q.equals, q.sort))
    ensures forall t {:trigger q.sort[t]} :: 0 <= t < |q.sort| ==>
      (IsEqual(q.equals, q.sort[t].name) <==> t < Head(q.equals, q.sort))
    ensures IndexFor(q) == EqSort(q.equals)
      + if q.range != [] && Head(q.equals, q.sort) == |q.sort| then [SortField(q.range[0].field, false)]
        else q.sort[Head(q.equals, q.sort)..]
  {
    hide *;
    RestAtHead(q);
    IndexMeans(q);
    var h := Head(q.equals, q.sort);
    assert h < |q.sort| ==> q.sort[h..] != [];
    forall t | 0 <= t < |q.sort| ensures IsEqual(q.equals, q.sort[t].name) <==> t < h { EqualWhere(q, t); }
  }

  /** There is an index exactly if no other field comes before one of the equalities in the
      sort order, the first other field is that of the conditions, and a != that has to be
      added to the sort order is not on a field of the equalities. */
  lemma {:induction false} SortableIs(q: Query)
    requires OncePerField(q.equals) && EqualsOnce(q)
    ensures
      var h := Head(q.equals, q.sort);
      Sortable(q) <==>
        && (forall t {:trigger q.sort[t]} :: h <= t < |q.sort| ==> !IsEqual(q.equals, q.sort[t].name))
        && (q.range != [] && h < |q.sort| ==> q.sort[h].name == q.range[0].field)
        && !(q.range != [] && q.range[0].cmp.Ne? && h == |q.sort| && IsEqual(q.equals, q.range[0].field))
  {
    var h := Head(q.equals, q.sort);
    NotMisplaced(q);
    if q.equals == [] || !Misplaced(q.equals, q.sort) { RestAtHead(q); }
    hide Misplaced, Head, Rest;
  }

  lemma {:induction false} NotMisplaced(q: Query)
    ensures (q.equals != [] ==> !Misplaced(q.equals, q.sort)) <==>
      forall t {:trigger q.sort[t]} :: Head(q.equals, q.sort) <= t < |q.sort| ==> !IsEqual(q.equals, q.sort[t].name)
  {
    hide IsEqual, Head;
    var h := Head(q.equals, q.sort);
    if q.equals == [] {
      forall t | 0 <= t < |q.sort| ensures !IsEqual(q.equals, q.sort[t].name) { NoneEqual(q.sort[t].name); }
    } else if !Misplaced(q.equals, q.sort) {
      forall t | h <= t < |q.sort| ensures !IsEqual(q.equals, q.sort[t].name) { EqualWhere(q, t); }
    }
  }

  lemma {:induction false} NoneEqual(f: string)
    ensures !IsEqual([], f)
  {
  }

  lemma {:induction false} IndexMeans(q: Query)
    ensures IndexFor(q) == EqSort(q.equals)
      + if q.range != [] && Rest(q) == [] then [SortField(q.range[0].field, false)] else Rest(q)
  {
    hide EqSort, Rest;
  }

  lemma {:induction false} EqualWhere(q: Query, t: nat)
    requires t < |q.sort| && (q.equals != [] ==> !Misplaced(q.equals, q.sort))
    ensures IsEqual(q.equals, q.sort[t].name) <==> t < Head(q.equals, q.sort)
  {
    hide Misplaced, Head;
    if q.equals != [] && IsEqual(q.equals, q.sort[t].name) { EqualAtHead(q.equals, q.sort, t); }
  }

  lemma {:induction false} RestAtHead(q: Query)
    requires OncePerField(q.equals) && EqualsOnce(q) && (q.equals != [] ==> !Misplaced(q.equals, q.sort))
    ensures Rest(q) == q.sort[Head(q.equals, q.sort)..]
  {
    hide Misplaced, Mentioned, OncePerField, EqualsOnce;
    if q.equals != [] {
      MentionedAtHead(q.equals, q.sort);
      HeadMentioned(q);
    }
  }

  lemma {:induction false} HeadMentioned(q: Query)
    requires OncePerField(q.equals) && EqualsOnce(q)
    ensures Head(q.equals, q.sort) <= Mentioned(q.equals, q.sort)
  {
    var h := Head(q.equals, q.sort);
    var head := q.sort[..h];
    MentionedAre(q.equals, q.sort);
    forall i, j | 0 <= i < j < h ensures head[i].name != head[j].name {
      assert head[i] == q.sort[i] && head[j] == q.sort[j];
    }
    DistinctNames(head);
    forall f | f in Names(head) ensures f in MentionedNames(q.equals, q.sort) {
      assert InSort(head, f);
      var i :| 0 <= i < h && head[i].name == f;
      assert q.sort[i].name == f;
    }
    FewerMembers(Names(head), MentionedNames(q.equals, q.sort));
  }

  lemma {:induction false} DistinctNames(sort: seq<SortField>)
    requires forall i, j {:trigger sort[i], sort[j]} :: 0 <= i < j < |sort| ==> sort[i].name != sort[j].name
    ensures |Names(sort)| == |sort|
  {
    if sort != [] {
      var front := sort[..|sort| - 1];
      DistinctNames(front);
      assert forall i {:trigger front[i]} :: 0 <= i < |front| ==> front[i] == sort[i];
      assert !InSort(front, sort[|sort| - 1].name);
    }
  }

  /** The cursors of a != next to equalities are merged when no sort order mentions its field. */
  predicate ByTail(q: Query)
  {
    q.equals != [] && q.range != [] && q.range[0].cmp.Ne? && Rest(q) == []
  }

  /** A sort entry whose direction may still be open. */
  datatype Item = Item(field: string, desc: Option<bool>)

  function ItemsOf(s: seq<SortField>): (r: seq<Item>)
    ensures |r| == |s| && forall i {:trigger r[i]} :: 0 <= i < |r| ==> r[i] == Item(s[i].name, Some(s[i].desc))
  {
    seq(|s|, i requires 0 <= i < |s| => Item(s[i].name, Some(s[i].desc)))
  }

  method CheckOrder(q: Query) returns (ok: bool)
    ensures ok <==> !Misplaced(q.equals, q.sort)
  {
    var ex := false;
    for i := 0 to |q.sort|
      invariant ex <==> exists k {:trigger q.sort[k]} :: 0 <= k < i && !IsEqual(q.equals, q.sort[k].name)
      invariant forall k, j {:trigger q.sort[k], q.sort[j]} :: 0 <= k < j < i && !IsEqual(q.equals, q.sort[k].name) ==>
        !IsEqual(q.equals, q.sort[j].name)
    {
      if !IsEqual(q.equals, q.sort[i].name) {
        ex := true;
      } else if ex {
        return false;
      }
    }
    ok := true;
  }

  method CountMentioned(equals: seq<Eq>, sort: seq<SortField>) returns (n: nat)
    ensures n == Mentioned(equals, sort)
  {
    n := 0;
    for i := 0 to |equals|
      invariant n == Mentioned(equals[..i], sort)
    {
      assert equals[..i + 1][..i] == equals[..i];
      if InSort(sort, equals[i].field) { n := n + 1; }
    }
    assert equals[..|equals|] == equals;
  }

  /** Lays the wanted order over the fixed one; a direction left open is taken over. */
  method Overlay(sort0: seq<Item>, wanted: seq<Item>) returns (r: Outcome<seq<Item>>)
    ensures r.Ok? <==> forall i {:trigger wanted[i]} :: 0 <= i < |wanted| && i < |sort0| ==>
      sort0[i].field == wanted[i].field
          && (sort0[i].desc.Some? && wanted[i].desc.Some? ==> sort0[i].desc == wanted[i].desc)
    ensures r.Ok? ==> |r.value| == (if |wanted| > |sort0| then |wanted| else |sort0|)
    ensures r.Ok? ==> forall i {:trigger r.value[i]} :: 0 <= i < |r.value| ==>
      r.value[i] == if i >= |sort0| then wanted[i] else if i < |wanted| && sort0[i].desc.None? then wanted[i]
          else sort0[i]
  {
    var sort := sort0;
    for i := 0 to |wanted|
      invariant |sort| == if i > |sort0| then i else |sort0|
      invariant forall k {:trigger sort[k]} :: 0 <= k < |sort| ==>
        sort[k] == if k >= |sort0| then wanted[k] else if k < i && sort0[k].desc.None? then wanted[k] else sort0[k]
      invariant forall k {:trigger wanted[k]} :: 0 <= k < i && k < |sort0| ==>
        sort0[k].field == wanted[k].field
            && (sort0[k].desc.Some? && wanted[k].desc.Some? ==> sort0[k].desc == wanted[k].desc)
    {
      var v := wanted[i];
      if i >= |sort| {
        sort := sort + [v];
      } else if sort[i].field == v.field {
        if sort[i].desc.Some? && v.desc.Some? && sort[i].desc != v.desc { return Err("the wrong sort"); }
        if sort[i].desc.None? && v.desc.Some? { sort := sort[i := Item(v.field, v.desc)]; }
      } else {
        return Err("the wrong sort");
      }
    }
    r := Ok(sort);
  }

  function Closed(items: seq<Item>): (s: seq<SortField>)
    ensures |s| == |items|
    ensures forall i {:trigger s[i]} :: 0 <= i < |s| ==> s[i] == SortField(items[i].field, items[i].desc == Some(true))
  {
    seq(|items|, i requires 0 <= i < |items| => SortField(items[i].field, items[i].desc == Some(true)))
  }

  predicate HasItem(items: seq<Item>, f: string)
  {
    exists i {:trigger items[i]} :: 0 <= i < |items| && items[i].field == f
  }

  lemma {:induction false} EqItems(equals: seq<Eq>, f: string)
    ensures HasItem(ItemsOf(EqSort(equals)), f) <==> IsEqual(equals, f)
  {
    var items := ItemsOf(EqSort(equals));
    if HasItem(items, f) {
      var i :| 0 <= i < |items| && items[i].field == f;
      assert equals[i].field == f;
    }
    if IsEqual(equals, f) {
      var i :| 0 <= i < |equals| && equals[i].field == f;
      assert items[i].field == f;
    }
  }

  /** The fields the equalities fix, and after them what the caller wants sorted by. */
  method SplitSort(q: Query) returns (r: Outcome<seq<Item>>)
    ensures r.Ok? <==> q.equals == [] || !Misplaced(q.equals, q.sort)
    ensures r.Ok? ==> r.value == ItemsOf(Rest(q))
  {
    var qsort := ItemsOf(q.sort);
    if |q.equals| > 0 {
      var ok := CheckOrder(q);
      if !ok { return Err("the wrong sort"); }
      var dups := CountMentioned(q.equals, q.sort);
      qsort := if dups <= |qsort| then qsort[dups..] else [];
    }
    r := Ok(qsort);
  }

  /** Brings the field of the conditions into the two lists. */
  method PlaceRange(q: Query, rest: seq<Item>) returns (r: Outcome<(seq<Item>, seq<Item>)>, byTail: bool)
    requires q.range != [] && rest == ItemsOf(Rest(q))
    ensures r.Ok? <==>
      ((rest != [] ==> rest[0].field == q.range[0].field)
        && !(q.equals != [] && q.range[0].cmp.Ne? && rest == [] && IsEqual(q.equals, q.range[0].field)))
    ensures r.Ok? ==> byTail == ByTail(q)
    ensures r.Ok? ==> r.value.0 == ItemsOf(EqSort(q.equals)) + if rest == [] then [Item(q.range[0].field, None)] else []
    ensures r.Ok? ==>
      r.value.1 == ItemsOf(EqSort(q.equals)) + if byTail then [Item(q.range[0].field, Some(false))] else rest
  {
    byTail := false;
    var sort := ItemsOf(EqSort(q.equals));
    var qsort := sort + rest;
    var next, f := |sort|, q.range[0].field;
    EqItems(q.equals, f);
    assert rest == [] ==> qsort == ItemsOf(EqSort(q.equals));
    if |qsort| == |sort| {
      sort := sort + [Item(f, None)];
    } else if f != qsort[next].field {
      return Err("the sort field must be that of the inequity"), false;
    }
    if q.range[0].cmp.Ne? && |qsort| != 0 && (next >= |qsort| || qsort[next].field != f) {
      if HasItem(qsort, f) { return Err("the wrong sort"), false; }
      qsort := qsort[..|q.equals|] + [Item(f, Some(false))] + qsort[|q.equals|..];
      byTail := true;
    }
    r := Ok((sort, qsort));
  }

  /** Laying the wanted order over the fixed one never fails by then. */
  method LayOver(q: Query, sort: seq<Item>, wanted: seq<Item>) returns (index: seq<SortField>)
    requires sort == ItemsOf(EqSort(q.equals)) + if q.range != [] && Rest(q) == [] then [Item(q.range[0].field, None)]
      else []
    requires wanted == ItemsOf(EqSort(q.equals)) + if ByTail(q) then [Item(q.range[0].field, Some(false))]
      else ItemsOf(Rest(q))
    requires q.range != [] && Rest(q) != [] ==> Rest(q)[0].name == q.range[0].field
    ensures index == IndexFor(q)
  {
    var merged := Overlay(sort, wanted);
    assert merged.Ok?;
    index := Closed(merged.value);
  }

  /** Chooses the index. */
  method CheckSort(q: Query) returns (r: Outcome<IndexName>, byTail: bool)
    ensures r.Ok? <==> Sortable(q)
    ensures r.Ok? ==> r.value == IndexFor(q) && byTail == ByTail(q)
  {
    byTail := false;
    var rest := SplitSort(q);
    if rest.Err? { return Err(rest.reason), false; }
    var sort := ItemsOf(EqSort(q.equals));
    var qsort := sort + rest.value;
    if q.range != [] {
      var placed;
      placed, byTail := PlaceRange(q, rest.value);
      if placed.Err? { return Err(placed.reason), false; }
      sort, qsort := placed.value.0, placed.value.1;
    }
    var index := LayOver(q, sort, qsort);
    r := Ok(index);
  }

  // ----- the bounds a query asks for

  /** A start or end bound: values for some fields, themselves included or not. */
  datatype Bound = Bound(inclusive: bool, vals: Doc)

  function EqMap(equals: seq<Eq>): Doc
  {
    if equals == [] then map[]
        else EqMap(equals[..|equals| - 1])[equals[|equals| - 1].field := equals[|equals| - 1].value]
  }

  /** The start bound once the equalities and conditions were taken in. */
  function StartOf(equals: seq<Eq>, range: seq<Cond>): Option<Bound>
  {
    if range == [] then (if equals == [] then None else Some(Bound(true, EqMap(equals))))
    else
      var c, before := range[|range| - 1], StartOf(equals, range[..|range| - 1]);
      if Lower(c.cmp) then
        var vals := if before.Some? then before.value.vals else map[];
        Some(Bound(c.cmp.Ge? && (before.Some? ==> before.value.inclusive), vals[c.field := c.value]))
      else before
  }

  function EndOf(equals: seq<Eq>, range: seq<Cond>): Option<Bound>
  {
    if range == [] then (if equals == [] then None else Some(Bound(true, EqMap(equals))))
    else
      var c, before := range[|range| - 1], EndOf(equals, range[..|range| - 1]);
      if Upper(c.cmp) then
        var vals := if before.Some? then before.value.vals else map[];
        Some(Bound(c.cmp.Le? && (before.Some? ==> before.value.inclusive), vals[c.field := c.value]))
      else before
  }

  predicate AnyUpper(range: seq<Cond>)
  {
    exists i {:trigger range[i]} :: 0 <= i < |range| && Upper(range[i].cmp)
  }

  predicate AnyLower(range: seq<Cond>)
  {
    exists i {:trigger range[i]} :: 0 <= i < |range| && Lower(range[i].cmp)
  }

  /** Both bounds, and which of them a reversed scan has to swap. */
  datatype Limits = Limits(start: Option<Bound>, end: Option<Bound>, revStart: bool, revEnd: bool)

  /** The bounds of a query. */
  function LimitsOf(q: Query): Limits
  {
    Limits(StartOf(q.equals, q.range), EndOf(q.equals, q.range), AnyLower(q.range), AnyUpper(q.range))
  }

  method CheckStartEnd(q: Query) returns (r: Outcome<Limits>)
    ensures r.Ok? <==> OnOtherField(q)
    ensures r.Ok? ==> r.value == LimitsOf(q)
  {
    if |q.equals| > 0 && q.range != [] && IsEqual(q.equals, q.range[0].field) {
      return Err("== and range field must be different");
    }
    var start, end: Option<Bound> := None, None;
    for i := 0 to |q.equals|
      invariant start == StartOf(q.equals[..i], []) && end == start
    {
      var e := q.equals[i];
      assert q.equals[..i + 1][..i] == q.equals[..i] && q.equals[..i + 1][i] == e;
      assert EqMap(q.equals[..i + 1]) == EqMap(q.equals[..i])[e.field := e.value];
      var vals := if start.Some? then start.value.vals else map[];
      start := Some(Bound(true, vals[e.field := e.value]));
      end := start;
    }
    assert q.equals[..|q.equals|] == q.equals;
    var revStart, revEnd := false, false;
    for i := 0 to |q.range|
      invariant start == StartOf(q.equals, q.range[..i]) && end == EndOf(q.equals, q.range[..i])
      invariant revStart == AnyLower(q.range[..i]) && revEnd == AnyUpper(q.range[..i])
    {
      var c := q.range[i];
      assert q.range[..i + 1][..i] == q.range[..i] && q.range[..i + 1][i] == c;
      NextCond(q.range, i);
      if c.cmp.Lt? || c.cmp.Le? {
        var vals := if end.Some? then end.value.vals else map[];
        end := Some(Bound(c.cmp.Le? && (end.Some? ==> end.value.inclusive), vals[c.field := c.value]));
        revEnd := true;
      } else if c.cmp.Gt? || c.cmp.Ge? {
        var vals := if start.Some? then start.value.vals else map[];
        start := Some(Bound(c.cmp.Ge? && (start.Some? ==> start.value.inclusive), vals[c.field := c.value]));
        revStart := true;
      }
    }
    assert q.range[..|q.range|] == q.range;
    r := Ok(Limits(start, end, revStart, revEnd));
  }

  lemma {:induction false} NextCond(range: seq<Cond>, i: nat)
    requires i < |range|
    ensures AnyLower(range[..i + 1]) <==> AnyLower(range[..i]) || Lower(range[i].cmp)
    ensures AnyUpper(range[..i + 1]) <==> AnyUpper(range[..i]) || Upper(range[i].cmp)
  {
    var a, b := range[..i + 1], range[..i];
    assert forall j :: 0 <= j < i ==> a[j] == b[j];
    assert a[i] == range[i];
  }

  /** What the index is asked: one range, or two one after the other. */
  datatype Request = One(one: Limits) | Two(first: Limits, second: Limits)

  /** The part below an excluded value. */
  function BelowOf(q: Query, l: Limits): Limits
    requires q.range != []
  {
    Limits(l.start,
        Some(Bound(false, (if l.end.Some? then l.end.value.vals else map[])[q.range[0].field := q.range[0].value])),
            true, true)
  }

  function AboveOf(q: Query, l: Limits): Limits
    requires q.range != []
  {
    Limits(Some(Bound(false,
        (if l.start.Some? then l.start.value.vals else map[])[q.range[0].field := q.range[0].value])), l.end, true,
            true)
  }

  method BuildQueries(q: Query, l: Limits) returns (r: Request)
    ensures r == if q.range != [] && q.range[0].cmp.Ne? then Two(BelowOf(q, l), AboveOf(q, l)) else One(l)
  {
    if q.range != [] && q.range[0].cmp.Ne? {
      var f, v := q.range[0].field, q.range[0].value;
      var end := if l.end.Some? then l.end.value else Bound(false, map[]);
      end := Bound(false, end.vals[f := v]);
      var start := if l.start.Some? then l.start.value else Bound(false, map[]);
      start := Bound(false, start.vals[f := v]);
      r := Two(Limits(l.start, Some(end), true, true), Limits(Some(start), l.end, true, true));
    } else {
      r := One(l);
    }
  }
}
