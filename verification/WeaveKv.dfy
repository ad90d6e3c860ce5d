/** The layered store: uncommitted changes over committed but unflushed ones over the
    stored keys, with a queue of commits drained in transactions into the store and a
    numbered log. */
module WeaveKv {
  import opened Lists

  type Val = string

  /** What a transaction changes; None deletes a key. */
  type Changes = map<string, Option<Val>>

  type Store = map<string, Val>

  function Lookup(store: Store, k: string): Option<Val>
  {
    if k in store then Some(store[k]) else None
  }

  /** The store after one change. */
  function Change(store: Store, k: string, v: Option<Val>): Store
  {
    if v.Some? then store[k := v.value] else store - {k}
  }

  ghost predicate Applied(store: Store, cl: Changes, after: Store)
  {
    forall k {:trigger Lookup(after, k)} {:trigger Lookup(store, k)} ::
        Lookup(after, k) == if k in cl then cl[k] else Lookup(store, k)
  }

  /** What is stored under k once all changes were applied in order. */
  ghost function Folded(history: seq<Changes>, k: string): Option<Val>
  {
    if history == [] then None
    else
      var last := history[|history| - 1];
      if k in last then last[k] else Folded(history[..|history| - 1], k)
  }

  ghost predicate IsFold(store: Store, history: seq<Changes>)
  {
    forall k {:trigger Lookup(store, k)} {:trigger Folded(history, k)} :: Lookup(store, k) == Folded(history, k)
  }

  /** Keys of the form __..., kept out of the public log. */
  predicate Private(k: string)
  {
    |k| >= 2 && k[0] == '_' && k[1] == '_' && forall i {:trigger k[i]} :: 2 <= i < |k| ==> !LineEnd(k[i])
  }

  predicate LineEnd(ch: char)
  {
    ch == '\n' || ch == '\r' || ch == '\U{2028}' || ch == '\U{2029}'
  }

  /** Such a key is two underscores and then a text without a line end. */
  lemma {:induction false} PrivateIs(k: string)
    ensures Private(k) <==> exists rest: string {:trigger "__" + rest} ::
        k == "__" + rest && forall i {:trigger rest[i]} :: 0 <= i < |rest| ==> !LineEnd(rest[i])
  {
    if Private(k) {
      var rest := k[2..];
      assert k == "__" + rest;
      forall i | 0 <= i < |rest| ensures !LineEnd(rest[i]) { assert rest[i] == k[i + 2]; }
    }
    if rest: string :| k == "__" + rest && forall i {:trigger rest[i]} :: 0 <= i < |rest| ==> !LineEnd(rest[i]) {
      forall i | 2 <= i < |k| ensures !LineEnd(k[i]) { assert k[i] == rest[i - 2]; }
    }
  }

  /** The public part of a change set. */
  ghost predicate Public(cl: Changes, pub: Changes)
  {
    forall k {:trigger k in pub} {:trigger k in cl} ::
        (k in pub <==> k in cl && !Private(k)) && (k in pub ==> pub[k] == cl[k])
  }

  datatype Entry = Entry(i: nat, cl: Changes)

  /** The stored state is the fold of the first n change sets, logged without a gap. */
  ghost predicate Stored(store: Store, wal: map<nat, Changes>, current: Option<nat>, history: seq<Changes>, n: nat)
  {
    && n <= |history|
    && IsFold(store, history[..n])
    && (forall j: nat {:trigger j in wal} :: j in wal <==> j < n)
    && (forall j: nat {:trigger wal[j]} :: j < n ==> Public(history[j], wal[j]))
    && current == (if n == 0 then None else Some(n - 1))
  }

  /** The queue holds the rest of the change sets, numbered on. */
  ghost predicate Queued(c: seq<Entry>, i: nat, s: Changes, history: seq<Changes>, n: nat)
  {
    && i == |history| && n <= |history| && |c| == |history| - n
    && (forall j {:trigger c[j]} :: 0 <= j < |c| ==> c[j] == Entry(n + j, history[n + j]))
    && forall j, k {:trigger k in c[j].cl} :: 0 <= j < |c| && k in c[j].cl ==> k in s
  }

  /** s holds the last change of every key changed since the start. */
  ghost predicate Overlaid(s: Changes, store: Store, history: seq<Changes>)
  {
    forall k {:trigger k in s} {:trigger Folded(history, k)} ::
      if k in s then s[k] == Folded(history, k) else Lookup(store, k) == Folded(history, k)
  }

  lemma {:induction false} StoredShorter(store: Store, wal: map<nat, Changes>, current: Option<nat>,
      history: seq<Changes>, n: nat)
    requires Stored(store, wal, current, history, n)
    ensures Stored(store, wal, current, history[..n], n) && Overlaid(map[], store, history[..n])
  {
    assert history[..n][..n] == history[..n];
    forall j: nat | j < n ensures Public(history[..n][j], wal[j]) { assert Public(history[j], wal[j]); }
    forall k ensures Lookup(store, k) == Folded(history[..n], k) {}
  }

  lemma {:induction false} StoredLonger(store: Store, wal: map<nat, Changes>, current: Option<nat>,
      history: seq<Changes>, n: nat, cl: Changes)
    requires Stored(store, wal, current, history, n)
    ensures Stored(store, wal, current, history + [cl], n)
  {
    assert (history + [cl])[..n] == history[..n];
    forall j: nat | j < n ensures Public((history + [cl])[j], wal[j]) { assert Public(history[j], wal[j]); }
  }

  lemma {:induction false} QueuedLonger(c: seq<Entry>, i: nat, s: Changes, history: seq<Changes>, n: nat, cl: Changes)
    requires Queued(c, i, s, history, n)
    ensures Queued(c + [Entry(i, cl)], i + 1, s + cl, history + [cl], n)
  {
    var c' := c + [Entry(i, cl)];
    forall j | 0 <= j < |c'| ensures c'[j] == Entry(n + j, (history + [cl])[n + j]) {
      assert j < |c| ==> c'[j] == c[j];
    }
    forall j, k | 0 <= j < |c'| && k in c'[j].cl ensures k in s + cl {
      assert j < |c| ==> c'[j] == c[j] && k in c[j].cl;
    }
  }

  lemma {:induction false} QueuedNone(history: seq<Changes>)
    ensures Queued([], |history|, map[], history, |history|)
  {
  }

  lemma {:induction false} OverlaidLonger(s: Changes, store: Store, history: seq<Changes>, cl: Changes)
    requires Overlaid(s, store, history)
    ensures Overlaid(s + cl, store, history + [cl])
  {
    assert (history + [cl])[..|history|] == history;
    forall k ensures if k in s + cl then (s + cl)[k] == Folded(history + [cl], k)
        else Lookup(store, k) == Folded(history + [cl], k) {
      assert k in s || k !in s;
    }
  }

  lemma {:induction false} CurrentIs(store: Store, wal: map<nat, Changes>, current: Option<nat>, history: seq<Changes>,
      n: nat)
    requires Stored(store, wal, current, history, n)
    ensures n <= |history| && current == if n == 0 then None else Some(n - 1)
  {
  }

  lemma {:induction false} NumberIs(c: seq<Entry>, i: nat, s: Changes, history: seq<Changes>, n: nat)
    requires Queued(c, i, s, history, n)
    ensures i == |history| && |c| == |history| - n && n <= |history|
  {
  }

  lemma {:induction false} SameBelow(k: string, s: Changes, store: Store, after: Store)
    requires k !in s ==> Lookup(after, k) == Lookup(store, k)
    ensures k !in s ==> (k in after <==> k in store) && (k in after ==> after[k] == store[k])
  {
  }

  /** One queued change set moves from the queue into the store and the log. */
  lemma {:induction false} Moved(store: Store, wal: map<nat, Changes>, current: Option<nat>, c: seq<Entry>, i: nat,
      s: Changes, history: seq<Changes>, n: nat,
      after: Store, pub: Changes)
    requires Stored(store, wal, current, history, n) && Queued(c, i, s, history, n) && Overlaid(s, store, history)
    requires c != []
    requires Applied(store, c[0].cl, after) && Public(c[0].cl, pub)
    ensures Stored(after, wal[c[0].i := pub], Some(c[0].i), history, n + 1) && Queued(c[1..], i, s, history, n + 1)
    ensures Overlaid(s, after, history)
    ensures forall k {:trigger Lookup(after, k)} :: k !in s ==> Lookup(after, k) == Lookup(store, k)
  {
    assert c[0] == Entry(n, history[n]);
    assert history[..n + 1] == history[..n] + [history[n]];
    forall k | k !in s ensures Lookup(after, k) == Lookup(store, k) { assert k !in c[0].cl; }
    forall j | 0 <= j < |c[1..]| ensures c[1..][j] == Entry(n + 1 + j, history[n + 1 + j]) {
      assert c[1..][j] == c[j + 1];
    }
    forall j, k | 0 <= j < |c[1..]| && k in c[1..][j].cl ensures k in s {
      assert c[1..][j] == c[j + 1] && k in c[j + 1].cl;
    }
  }

  // ----- what steps amount to

  datatype Step =
    | Set(key: string, val: Val) | Remove(key: string) | Undo | Finish
    | RunTransaction | AfterTransaction | OuterReturn | PowerLoss

  /** The open changes, the commits made, how many of them are stored, and the drains under
      way: those waiting for their transaction, for what follows it, and for their return. */
  datatype Session = Session(open: Changes, commits: seq<Changes>, kept: nat, on: bool, waiting: nat, resuming: nat,
      tails: nat)

  function Next(s: Session, step: Step): Session
  {
    match step
    case Set(k, v) => s.(open := s.open[k := Some(v)])
    case Remove(k) => s.(open := s.open[k := None])
    case Undo => s.(open := map[])
    case Finish => s.(open := map[], commits := s.commits + [s.open], on := true, waiting := if s.on then s.waiting
        else s.waiting + 1)
    case RunTransaction => if s.waiting == 0 then s
        else s.(kept := |s.commits|, waiting := s.waiting - 1, resuming := s.resuming + 1)
    case AfterTransaction =>
      if s.resuming == 0 then s
      else
        var more := s.kept < |s.commits|;
        s.(on := more, resuming := s.resuming - 1, tails := s.tails + 1, waiting := if more then s.waiting + 1
            else s.waiting)
    case OuterReturn => if s.tails == 0 then s else s.(on := false, tails := s.tails - 1)
    case PowerLoss => Session(map[], if s.kept <= |s.commits| then s.commits[..s.kept]
        else s.commits, s.kept, false, 0, 0, 0)
  }

  function Outcome(s: Session, steps: seq<Step>): Session
  {
    if steps == [] then s else Next(Outcome(s, steps[..|steps| - 1]), steps[|steps| - 1])
  }

  /** What is stored once stays: over any run the number of stored commits only grows, and
      they are still the first ones. */
  lemma {:induction false} Durable(s: Session, steps: seq<Step>)
    requires s.kept <= |s.commits|
    ensures s.kept <= Outcome(s, steps).kept <= |Outcome(s, steps).commits|
    ensures Outcome(s, steps).commits[..s.kept] == s.commits[..s.kept]
  {
    if steps != [] {
      var front := steps[..|steps| - 1];
      Durable(s, front);
      DurableStep(Outcome(s, front), steps[|steps| - 1], s.kept);
    }
  }

  lemma {:induction false} DurableStep(s: Session, step: Step, n: nat)
    requires n <= s.kept <= |s.commits|
    ensures n <= Next(s, step).kept <= |Next(s, step).commits| && Next(s, step).commits[..n] == s.commits[..n]
  {
  }

  // ----- what a run leaves, read off its steps

  predicate Touches(step: Step, k: string)
  {
    (step.Set? && step.key == k) || (step.Remove? && step.key == k)
  }

  /** Nothing is open after it. */
  predicate Clears(step: Step)
  {
    step.Finish? || step.Undo? || step.PowerLoss?
  }

  /** Step j is the last one that sets or removes k, and is still open. */
  ghost predicate LastTouch(steps: seq<Step>, j: int, k: string)
  {
    && 0 <= j < |steps| && Touches(steps[j], k)
    && forall m {:trigger steps[m]} :: j < m < |steps| ==> !Touches(steps[m], k) && !Clears(steps[m])
  }

  /** Something closed the transaction that was open at first. */
  ghost predicate Cleared(steps: seq<Step>)
  {
    exists m {:trigger steps[m]} :: 0 <= m < |steps| && Clears(steps[m])
  }

  lemma {:induction false} LastTouchStep(steps: seq<Step>, k: string, j: int)
    requires steps != []
    ensures LastTouch(steps, j, k) <==>
      if Touches(steps[|steps| - 1], k) then j == |steps| - 1
      else !Clears(steps[|steps| - 1]) && LastTouch(steps[..|steps| - 1], j, k)
  {
    var n := |steps| - 1;
    var front := steps[..n];
    if LastTouch(front, j, k) && !Touches(steps[n], k) && !Clears(steps[n]) {
      forall m | j < m <= n ensures !Touches(steps[m], k) && !Clears(steps[m]) {
        assert m < n ==> steps[m] == front[m];
      }
    }
    if LastTouch(steps, j, k) && j < n {
      forall m | j < m < n ensures !Touches(front[m], k) && !Clears(front[m]) { assert front[m] == steps[m]; }
    }
  }

  lemma {:induction false} ClearedStep(steps: seq<Step>)
    requires steps != []
    ensures Cleared(steps) <==> Cleared(steps[..|steps| - 1]) || Clears(steps[|steps| - 1])
  {
    var n := |steps| - 1;
    assert forall m {:trigger steps[m]} :: 0 <= m < n ==> steps[m] == steps[..n][m];
    assert forall m {:trigger steps[..n][m]} :: 0 <= m < n ==> steps[m] == steps[..n][m];
  }

  /** What is open are the last changes of keys since the last commit, reset or crash, and
      what was open before, if there was none of these. */
  lemma {:induction false} OpenIs(s: Session, steps: seq<Step>, k: string)
    ensures forall j {:trigger LastTouch(steps, j, k)} :: LastTouch(steps, j, k) ==> 0 <= j < |steps|
    ensures forall j {:trigger LastTouch(steps, j, k)} :: LastTouch(steps, j, k) ==>
      Changed(Outcome(s, steps).open, k) == Some(if steps[j].Set? then Some(steps[j].val) else None)
    ensures (forall j {:trigger LastTouch(steps, j, k)} :: !LastTouch(steps, j, k)) ==>
      Changed(Outcome(s, steps).open, k) == if Cleared(steps) then None else Changed(s.open, k)
  {
    if steps != [] {
      var n := |steps| - 1;
      OpenIs(s, steps[..n], k);
      forall j ensures LastTouch(steps, j, k) <==>
        if Touches(steps[n], k) then j == n else !Clears(steps[n]) && LastTouch(steps[..n], j, k) {
        LastTouchStep(steps, k, j);
      }
      ClearedStep(steps);
      hide LastTouch, Cleared;
      if Touches(steps[n], k) { assert LastTouch(steps, n, k); }
    }
  }

  /** The change of k, if there is one. */
  function Changed(cl: Changes, k: string): Option<Option<Val>>
  {
    if k in cl then Some(cl[k]) else None
  }

  /** The commit of the Finish at p, which no crash after it took away. */
  ghost predicate Survives(s: Session, steps: seq<Step>, p: int)
  {
    && 0 <= p < |steps| && steps[p].Finish?
    && forall q {:trigger steps[q]} :: p < q < |steps| && steps[q].PowerLoss? ==>
         |Outcome(s, steps[..p]).commits| < Outcome(s, steps[..q]).kept
  }

  /** Every Finish makes one commit, of what was open, with the next number. */
  lemma {:induction false} CommitMade(s: Session, steps: seq<Step>, p: int)
    requires s.kept <= |s.commits| && Survives(s, steps, p)
    ensures |Outcome(s, steps[..p]).commits| < |Outcome(s, steps).commits|
    ensures Outcome(s, steps).commits[|Outcome(s, steps[..p]).commits|] == Outcome(s, steps[..p]).open
    decreases |steps|
  {
    var n := |steps| - 1;
    var front := steps[..n];
    if p < n {
      assert front[..p] == steps[..p] && front[p] == steps[p];
      forall q | p < q < n && front[q].PowerLoss?
          ensures |Outcome(s, front[..p]).commits| < Outcome(s, front[..q]).kept {
        assert front[q] == steps[q] && front[..q] == steps[..q];
      }
      CommitMade(s, front, p);
      Durable(s, front);
      assert steps[n].PowerLoss? ==> |Outcome(s, steps[..p]).commits| < Outcome(s, steps[..n]).kept;
      hide Outcome, Next, Survives;
      CommitStays(Outcome(s, front), steps[n], |Outcome(s, steps[..p]).commits|);
      OutcomeStep(s, steps);
    } else {
      OutcomeStep(s, steps);
    }
  }

  lemma {:induction false} OutcomeStep(s: Session, steps: seq<Step>)
    ensures steps == [] ==> Outcome(s, steps) == s
    ensures steps != [] ==> Outcome(s, steps) == Next(Outcome(s, steps[..|steps| - 1]), steps[|steps| - 1])
  {
  }

  lemma {:induction false} CommitStays(s: Session, step: Step, m: nat)
    requires m < |s.commits| && s.kept <= |s.commits| && (step.PowerLoss? ==> m < s.kept)
    ensures m < |Next(s, step).commits| && Next(s, step).commits[m] == s.commits[m]
  {
  }

  /** And there are no other commits. */
  lemma {:induction false} CommitFrom(s: Session, steps: seq<Step>, m: nat) returns (p: int)
    requires |s.commits| <= m < |Outcome(s, steps).commits|
    ensures 0 <= p < |steps| && steps[p].Finish? && |Outcome(s, steps[..p]).commits| == m
    ensures Outcome(s, steps).commits[m] == Outcome(s, steps[..p]).open
    decreases |steps|
  {
    hide *;
    OutcomeStep(s, steps);
    var n := |steps| - 1;
    var front := steps[..n];
    CommitIn(Outcome(s, front), steps[n], m);
    if m < |Outcome(s, front).commits| {
      p := CommitFrom(s, front, m);
      assert front[..p] == steps[..p];
    } else {
      p := n;
    }
  }

  lemma {:induction false} CommitIn(s: Session, step: Step, m: nat)
    requires m < |Next(s, step).commits|
    ensures m < |s.commits| ==> Next(s, step).commits[m] == s.commits[m]
    ensures m >= |s.commits| ==> step.Finish? && m == |s.commits| && Next(s, step).commits[m] == s.open
  {
  }

  /** How many commits a run makes. */
  function Finishes(steps: seq<Step>): nat
  {
    if steps == [] then 0 else Finishes(steps[..|steps| - 1]) + if steps[|steps| - 1].Finish? then 1 else 0
  }

  lemma {:induction false} CommitCount(s: Session, steps: seq<Step>)
    requires forall q {:trigger steps[q]} :: 0 <= q < |steps| ==> !steps[q].PowerLoss?
    ensures |Outcome(s, steps).commits| == |s.commits| + Finishes(steps)
  {
    if steps != [] { CommitCount(s, steps[..|steps| - 1]); }
  }

  /** Whatever is not stored yet has a drain under way. */
  predicate Draining(s: Session)
  {
    s.kept <= |s.commits| && (s.kept < |s.commits| ==> s.waiting + s.resuming > 0)
      && (s.on ==> s.waiting + s.resuming > 0)
  }

  lemma {:induction false} StaysDraining(s: Session, steps: seq<Step>)
    requires Draining(s)
    ensures Draining(Outcome(s, steps))
  {
    if steps != [] { StaysDraining(s, steps[..|steps| - 1]); }
  }

  /** At any time, letting the drains under way take two more steps stores all commits. */
  lemma {:induction false} DrainsAll(s: Session, steps: seq<Step>)
    requires Draining(s)
    ensures Outcome(s, steps + [AfterTransaction, RunTransaction]).commits == Outcome(s, steps).commits
    ensures Outcome(s, steps + [AfterTransaction, RunTransaction]).kept == |Outcome(s, steps).commits|
  {
    StaysDraining(s, steps);
    var one := steps + [AfterTransaction];
    var two := steps + [AfterTransaction, RunTransaction];
    assert two[..|two| - 1] == one && one[..|one| - 1] == steps;
    assert Outcome(s, two) == Next(Outcome(s, one), RunTransaction);
    assert Outcome(s, one) == Next(Outcome(s, steps), AfterTransaction);
  }

  class Kv {
    // the closure's own state
    var l: Changes
    var s: Changes
    var i: nat
    var c: seq<Entry>
    var on: bool

    // the underlying store
    var store: Store
    var wal: map<nat, Changes>
    var current: Option<nat>

    // drains waiting for their transaction, or for what follows it
    var waiting: nat
    var resuming: nat
    var tails: nat

    // every change set ever committed, and how many of them are in the store
    ghost var history: seq<Changes>
    ghost var flushed: nat

    ghost predicate Valid()
      reads this
    {
      && Stored(store, wal, current, history, flushed) && Queued(c, i, s, history, flushed)
      && Overlaid(s, store, history)
      && (c != [] ==> waiting + resuming > 0) && (on ==> waiting + resuming > 0)
    }

    /** Opens a store, as left by an earlier run or a crash. */
    constructor (store: Store, wal: map<nat, Changes>, current: Option<nat>, ghost history: seq<Changes>)
      requires Stored(store, wal, current, history, |history|)
      ensures Valid() && this.store == store && this.wal == wal && this.history == history && flushed == |history|
      ensures l == map[] && c == [] && i == |history| && State() == Session(map[], history, |history|, false, 0, 0, 0)
    {
      this.store, this.wal, this.current := store, wal, current;
      l, s, c, on := map[], map[], [], false;
      i := if current.Some? then current.value + 1 else 0;
      waiting, resuming, tails := 0, 0, 0;
      this.history, flushed := history, |history|;
      new;
      StoredShorter(store, wal, current, history, |history|);
      assert history[..|history|] == history;
    }

    /** How far the run has come. */
    ghost function State(): Session
      reads this
    {
      Session(l, history, flushed, on, waiting, resuming, tails)
    }

    /** The uncommitted value if there is one, else the committed one, else the stored one. */
    function Get(k: string): (v: Option<Val>)
      reads this
    {
      if k in l && l[k].Some? then l[k]
      else Below(k)
    }

    /** The same without the open transaction. */
    function Below(k: string): (v: Option<Val>)
      reads this
    {
      if k in s && s[k].Some? then s[k]
      else if k in store then Some(store[k])
      else None
    }

    method Put(k: string, v: Val)
      requires Valid()
      modifies this`l
      ensures Valid() && l == old(l)[k := Some(v)] && State() == Next(old(State()), Set(k, v))
      ensures Get(k) == Some(v) && forall x :: x != k ==> Get(x) == old(Get(x))
    {
      l := l[k := Some(v)];
    }

    method Del(k: string)
      requires Valid()
      modifies this`l
      ensures Valid() && l == old(l)[k := None] && State() == Next(old(State()), Remove(k))
      ensures Get(k) == Below(k) && forall x :: x != k ==> Get(x) == old(Get(x))
    {
      l := l[k := None];
    }

    /** Forgets the open transaction: every key reads as it did below it. */
    method Reset()
      requires Valid()
      modifies this`l
      ensures Valid() && l == map[] && State() == Next(old(State()), Undo)
      ensures forall k {:trigger Get(k)} :: Get(k) == old(Below(k))
    {
      l := map[];
    }

    /** The open changes get the next number and are queued; a drain is started unless one
        is under way. */
    method Enqueue() returns (number: nat, cl: Changes)
      requires Valid()
      modifies this
      ensures Valid() && cl == old(l) && number == old(i) == |old(history)| && State() == Next(old(State()), Finish)
      ensures history == old(history) + [cl] && i == old(i) + 1 && c == old(c) + [Entry(number, cl)] && l == map[]
      ensures s == old(s) + cl && on && waiting + resuming > 0
      ensures store == old(store) && wal == old(wal) && current == old(current) && flushed == old(flushed)
    {
      hide Stored, Queued, Overlaid;
      cl := l;
      StoredLonger(store, wal, current, history, flushed, cl);
      QueuedLonger(c, i, s, history, flushed, cl);
      OverlaidLonger(s, store, history, cl);
      NumberIs(c, i, s, history, flushed);
      c := c + [Entry(i, cl)];
      s := s + cl;
      l := map[];
      if !on { on := true; waiting := waiting + 1; }
      number := i;
      i := i + 1;
      history := history + [cl];
    }

    /** Closes the open transaction: its changes get the next number, are queued, and are
        visible at once; a deleted key reads as it is stored. */
    method Commit() returns (number: nat, cl: Changes)
      requires Valid()
      modifies this
      ensures Valid() && cl == old(l) && number == old(i) == |old(history)| && State() == Next(old(State()), Finish)
      ensures history == old(history) + [cl] && i == old(i) + 1 && c == old(c) + [Entry(number, cl)] && l == map[]
      ensures on && waiting + resuming > 0
      ensures forall k {:trigger Get(k)} ::
        Get(k) == if k !in cl then old(Get(k)) else if cl[k].Some? then cl[k] else Lookup(store, k)
      ensures store == old(store) && wal == old(wal) && current == old(current) && flushed == old(flushed)
    {
      hide Valid, State, Next;
      number, cl := Enqueue();
    }

    /** Writes one change set into the store and sorts out its public part. */
    static method Write(store: Store, cl: Changes) returns (after: Store, pub: Changes)
      ensures Applied(store, cl, after) && Public(cl, pub)
    {
      after, pub := store, map[];
      var keys := cl.Keys;
      while keys != {}
        invariant keys <= cl.Keys
        invariant forall k {:trigger Lookup(after, k)} ::
          Lookup(after, k) == if k in cl && k !in keys then cl[k] else Lookup(store, k)
        invariant forall k {:trigger k in pub} ::
          (k in pub <==> k in cl && k !in keys && !Private(k)) && (k in pub ==> pub[k] == cl[k])
      {
        var k :| k in keys;
        ghost var before := after;
        after := Change(after, k, cl[k]);
        forall x ensures Lookup(after, x) == if x == k then cl[k] else Lookup(before, x) {}
        if !Private(k) { pub := pub[k := cl[k]]; }
        keys := keys - {k};
      }
    }

    /** The transaction of one drain: everything queued is written, numbered and logged. */
    method Transact()
      requires Valid() && waiting > 0
      modifies this`c, this`store, this`wal, this`current, this`waiting, this`resuming, this`flushed
      ensures Valid() && c == [] && State() == Next(old(State()), RunTransaction)
      ensures flushed == |history| && waiting == old(waiting) - 1 && resuming == old(resuming) + 1
      ensures forall k {:trigger Below(k)} :: Below(k) == old(Below(k)) || (k in s && s[k].None?)
    {
      hide Stored, Queued, Overlaid, Applied, Public;
      while c != []
        invariant Stored(store, wal, current, history, flushed) && Queued(c, i, s, history, flushed)
        invariant Overlaid(s, store, history)
        invariant forall k {:trigger Lookup(store, k)} :: k !in s ==> Lookup(store, k) == Lookup(old(store), k)
        invariant waiting == old(waiting) && resuming == old(resuming)
        decreases |c|
      {
        var e := c[0];
        var after, pub := Write(store, e.cl);
        Moved(store, wal, current, c, i, s, history, flushed, after, pub);
        c := c[1..];
        store := after;
        wal := wal[e.i := pub];
        current := Some(e.i);
        flushed := flushed + 1;
      }
      NumberIs(c, i, s, history, flushed);
      assert forall k {:trigger Lookup(store, k)} :: k !in s ==> Lookup(store, k) == Lookup(old(store), k);
      forall k ensures Below(k) == old(Below(k)) || (k in s && s[k].None?) { SameBelow(k, s, old(store), store); }
      waiting, resuming := waiting - 1, resuming + 1;
    }

    /** What follows a transaction: another one, if more was queued meanwhile. */
    method Resume()
      requires Valid() && resuming > 0
      modifies this`on, this`waiting, this`resuming, this`tails
      ensures Valid() && (c != [] ==> waiting > 0) && State() == Next(old(State()), AfterTransaction)
      ensures (on <==> c != []) && resuming == old(resuming) - 1 && tails == old(tails) + 1
      ensures waiting == old(waiting) + if c != [] then 1 else 0
    {
      NumberIs(c, i, s, history, flushed);
      resuming, tails := resuming - 1, tails + 1;
      if |c| > 0 {
        on := true;
        waiting := waiting + 1;
      } else {
        on := false;
      }
    }

    /** The end of an outer call, which by then may overlap with a later drain. */
    method Tail()
      requires Valid() && tails > 0
      modifies this`on, this`tails
      ensures Valid() && !on && tails == old(tails) - 1 && State() == Next(old(State()), OuterReturn)
    {
      tails := tails - 1;
      on := false;
    }

    /** The closure and its drains are gone. */
    method Forget()
      modifies this`l, this`s, this`c, this`on, this`waiting, this`resuming, this`tails
      ensures l == map[] && s == map[] && c == [] && !on && waiting == resuming == tails == 0
    {
      l, s, c, on := map[], map[], [], false;
      waiting, resuming, tails := 0, 0, 0;
    }

    /** Everything but the store is lost. */
    method Crash()
      requires Valid()
      modifies this
      ensures Valid() && c == [] && State() == Next(old(State()), PowerLoss)
      ensures store == old(store) && wal == old(wal) && current == old(current)
      ensures history == old(history)[..old(flushed)] && flushed == |history| && i == flushed && l == map[]
      ensures !on && waiting == resuming == tails == 0
      ensures forall k {:trigger Get(k)} :: Get(k) == Lookup(store, k) == Folded(history, k)
    {
      hide Stored, Queued, Overlaid;
      CurrentIs(store, wal, current, history, flushed);
      StoredShorter(store, wal, current, history, flushed);
      ghost var kept := history[..flushed];
      assert |kept| == flushed && current == if flushed == 0 then None else Some(flushed - 1);
      QueuedNone(kept);
      Forget();
      i := if current.Some? then current.value + 1 else 0;
      history := kept;
    }

    // ----- what is visible

    /** With nothing queued and no open transaction, every key reads as the fold of all commits. */
    lemma {:induction false} DrainedView(k: string)
      requires Valid() && c == [] && l == map[]
      ensures Get(k) == Folded(history, k)
    {
      assert history[..|history|] == history;
      assert Lookup(store, k) == Folded(history, k);
    }

    /** While commits are queued a key reads as the fold of all commits except when its last
        change deletes it and the store still has it. */
    lemma {:induction false} QueuedView(k: string)
      requires Valid() && l == map[]
      ensures Get(k) == Folded(history, k) <==> !(k in s && s[k].None? && k in store)
    {
      assert Lookup(store, k) == if k in store then Some(store[k]) else None;
      assert k in s ==> s[k] == Folded(history, k);
      assert k !in s ==> Lookup(store, k) == Folded(history, k);
    }

    /** In particular for keys that no commit deletes. */
    lemma {:induction false} UndeletedView(k: string)
      requires Valid() && l == map[]
      requires forall j {:trigger history[j]} :: 0 <= j < |history| && k in history[j] ==> history[j][k].Some?
      ensures Get(k) == Folded(history, k)
    {
      QueuedView(k);
      if k in s && s[k].None? {
        NeverChanged(history, k);
        FoldedAbsent(history[..flushed], k);
        assert Lookup(store, k) == None;
      }
    }
  }

  lemma {:induction false} NeverChanged(history: seq<Changes>, k: string)
    requires Folded(history, k).None?
    requires forall j {:trigger history[j]} :: 0 <= j < |history| && k in history[j] ==> history[j][k].Some?
    ensures forall j {:trigger history[j]} :: 0 <= j < |history| ==> k !in history[j]
  {
    if history != [] {
      var n := |history| - 1;
      NeverChanged(history[..n], k);
      forall j | 0 <= j < |history| ensures k !in history[j] { assert j < n ==> history[..n][j] == history[j]; }
    }
  }

  lemma {:induction false} FoldedAbsent(history: seq<Changes>, k: string)
    requires forall j {:trigger history[j]} :: 0 <= j < |history| ==> k !in history[j]
    ensures Folded(history, k) == None
  {
    if history != [] {
      assert k !in history[|history| - 1];
      FoldedAbsent(history[..|history| - 1], k);
    }
  }

  // ----- rebuilding from the log

  /** Folding public parts gives the fold restricted to keys that are not private. */
  lemma {:induction false} PublicFold(history: seq<Changes>, pubs: seq<Changes>, k: string)
    requires |pubs| == |history| && forall j {:trigger history[j]} :: 0 <= j < |history| ==> Public(history[j], pubs[j])
    ensures Folded(pubs, k) == if Private(k) then None else Folded(history, k)
  {
    if history != [] {
      var n := |history| - 1;
      forall j | 0 <= j < n ensures Public(history[..n][j], pubs[..n][j]) { assert Public(history[j], pubs[j]); }
      PublicFold(history[..n], pubs[..n], k);
      assert Public(history[n], pubs[n]);
      assert k in pubs[n] <==> k in history[n] && !Private(k);
    }
  }

  /** Applying the public log entries 0, 1, ... to an empty store rebuilds exactly the keys
      that are not private. */
  method Replay(store: Store, wal: map<nat, Changes>, current: Option<nat>, ghost history: seq<Changes>, ghost n: nat)
      returns (rebuilt: Store)
    requires Stored(store, wal, current, history, n)
    ensures forall k {:trigger Lookup(rebuilt, k)} ::
      Lookup(rebuilt, k) == if Private(k) then None else Lookup(store, k)
  {
    rebuilt := map[];
    ghost var pubs: seq<Changes> := [];
    var last: int := if current.Some? then current.value else -1;
    var j := 0;
    while j <= last
      invariant j == |pubs| <= n && last == n - 1
      invariant forall m {:trigger pubs[m]} :: 0 <= m < j ==> pubs[m] == wal[m]
      invariant IsFold(rebuilt, pubs)
    {
      ghost var before := rebuilt;
      var pub;
      rebuilt, pub := Kv.Write(rebuilt, wal[j]);
      pubs := pubs + [wal[j]];
      j := j + 1;
    }
    forall k ensures Lookup(rebuilt, k) == if Private(k) then None else Lookup(store, k) {
      forall m | 0 <= m < n ensures Public(history[..n][m], pubs[m]) { assert Public(history[m], wal[m]); }
      PublicFold(history[..n], pubs, k);
      assert Lookup(rebuilt, k) == Folded(pubs, k) && Lookup(store, k) == Folded(history[..n], k);
    }
  }

  // ----- any run

  /** Any interleaving of calls, transactions, continuations and crashes: the open changes,
      the commits and how many of them are stored are what the steps say, and the store is
      the fold of those, with the log in step. */
  method Run(kv: Kv, steps: seq<Step>)
    requires kv.Valid()
    modifies kv
    ensures kv.Valid() && kv.State() == Outcome(old(kv.State()), steps)
  {
    hide Stored, Queued, Overlaid;
    for n := 0 to |steps|
      invariant kv.Valid() && kv.State() == Outcome(old(kv.State()), steps[..n])
    {
      assert steps[..n + 1][..n] == steps[..n];
      match steps[n]
      case Set(k, v) => kv.Put(k, v);
      case Remove(k) => kv.Del(k);
      case Undo => kv.Reset();
      case Finish => var number, cl := kv.Commit();
      case RunTransaction => if kv.waiting > 0 { kv.Transact(); }
      case AfterTransaction => if kv.resuming > 0 { kv.Resume(); }
      case OuterReturn => if kv.tails > 0 { kv.Tail(); }
      case PowerLoss => kv.Crash();
    }
    assert steps[..|steps|] == steps;
  }
}
