/** Reading a range one document at a time. */
module Cursors {
  import opened Lists
  import opened SortOrder
  import opened Layout
  import opened TreeInvariant
  import opened LeafOrder
  import opened Merge
  import opened Ranges
  import opened Bpt

  /** Some document is past the start of the range, or there is none at all. */
  ghost predicate Startable(fields: seq<SortField>, docs: Docs, opt: RangeOpt, c: seq<DocId>)
    requires FitsAll(fields, opt)
  {
    c == [] || exists q {:trigger c[q]} :: 0 <= q < |c| && Starts(fields, opt, KeyOf(fields, docs, c[q]))
  }

  /** What a scan collects begins with what it had. */
  lemma {:induction false} ScanExtends(fields: seq<SortField>, docs: Docs, opt: RangeOpt, c: seq<DocId>, p: nat,
      vals: seq<DocId>)
    ensures vals <= Scan(fields, docs, opt, c, p, vals)
    decreases |c| - p
  {
    if p < |c| && !Stops(fields, opt, KeyOf(fields, docs, c[p])) {
      ScanExtends(fields, docs, opt, c, p + 1, vals + [c[p]]);
    }
  }

  lemma {:induction false} SomeStarts(fields: seq<SortField>, docs: Docs, opt: RangeOpt, c: seq<DocId>, p: nat)
    requires FitsAll(fields, opt) && BeginsAt(fields, docs, opt, c, p)
    ensures Startable(fields, docs, opt, c) <==> c == [] || p < |c|
  {
    if p < |c| { assert Starts(fields, opt, KeyOf(fields, docs, c[p])); }
  }

  /** A forward cursor over one index. */
  class Cursor {
    const index: BPT
    const docs: Docs
    const opt: RangeOpt

    var node: Option<NodeId>
    var at: nat
    var taken: nat

    // what was given so far, and which leaf the node is
    ghost var given: seq<DocId>
    ghost var leaf: nat
    ghost var base: nat

    /** Everything the cursor gives in its life. */
    ghost function All(): seq<DocId>
      requires FitsAll(index.fields, opt)
      reads index
    {
      Answer(index.fields, docs, opt, index.Entries())
    }

    ghost predicate Valid()
      reads this, index
    {
      && FitsAll(index.fields, opt) && !opt.reverse && index.Valid(docs) && taken == |given|
      && if node.None? then given == All()
         else index.LeafPos(node.value, leaf, base) && at <= |index.nodes[node.value].ids|
              && Scan(index.fields, docs, opt, index.Entries(), base + at, given) == All()
    }

    /** How many leaves the cursor has not left yet. */
    ghost function Ahead(): nat
      reads this, index
    {
      if index.tree.levels != [] && leaf < |index.tree.levels[0]| then |index.tree.levels[0]| - leaf else 0
    }

    /** The place the range starts from, if there is one. */
    static method Begin(index: BPT, docs: Docs, opt: RangeOpt)
        returns (y: Option<NodeId>, at: nat, lost: bool, ghost i: nat, ghost m: nat)
      requires index.Valid(docs) && FitsAll(index.fields, opt) && !opt.reverse
      ensures lost <==> !Startable(index.fields, docs, opt, index.Entries())
      ensures !lost ==> Stands(index, docs, opt, y, at, i, m)
    {
      hide *;
      var start := if opt.startAt.Some? then opt.startAt else opt.startAfter;
      index.ValidParts(docs);
      var some, from, x, i', m', p := index.LocateForward(docs, opt, start, opt.startAt.None? && opt.startAfter.Some?);
      AnswerForward(index.fields, docs, opt, index.Entries(), p);
      SomeStarts(index.fields, docs, opt, index.Entries(), p);
      i, m, at := i', m', 0;
      lost := false;
      if from.Some? {
        y, at := Some(x), from.value;
        StandsThere(index, docs, opt, x, at, i, m);
      } else {
        y := None;
        lost := some;
        StandsNowhere(index, docs, opt, i, m);
      }
    }

    static lemma {:induction false} StandsThere(index: BPT, docs: Docs, opt: RangeOpt, x: NodeId, at: nat, i: nat,
        m: nat)
      requires FitsAll(index.fields, opt) && index.LeafPos(x, i, m) && x in index.nodes && index.nodes[x].Leaf?
      requires at <= |index.nodes[x].ids|
      requires Scan(index.fields, docs, opt, index.Entries(), m + at, []) == Answer(index.fields, docs, opt,
        index.Entries())
      ensures Stands(index, docs, opt, Some(x), at, i, m)
    {
    }

    static lemma {:induction false} StandsNowhere(index: BPT, docs: Docs, opt: RangeOpt, i: nat, m: nat)
      requires FitsAll(index.fields, opt)
      ensures index.Entries() == [] ==> Stands(index, docs, opt, None, 0, i, m)
    {
    }

    /** What a cursor that has given nothing yet needs. */
    static ghost predicate Stands(index: BPT, docs: Docs, opt: RangeOpt, y: Option<NodeId>, at: nat, i: nat, m: nat)
      requires FitsAll(index.fields, opt)
      reads index
    {
      if y.None? then Answer(index.fields, docs, opt, index.Entries()) == []
      else index.LeafPos(y.value, i, m) && at <= |index.nodes[y.value].ids|
           && Scan(index.fields, docs, opt, index.Entries(), m + at, []) == Answer(index.fields, docs, opt,
             index.Entries())
    }

    constructor (index: BPT, docs: Docs, opt: RangeOpt, y: Option<NodeId>, at: nat, ghost i: nat, ghost m: nat)
      requires index.Valid(docs) && FitsAll(index.fields, opt) && !opt.reverse && Stands(index, docs, opt, y, at, i, m)
      ensures Valid() && this.index == index && this.docs == docs && this.opt == opt && given == []
    {
      hide BPT.Valid, BPT.Entries, BPT.LeafPos, Answer, Scan;
      this.index, this.docs, this.opt := index, docs, opt;
      node, this.at, taken, given, leaf, base := y, at, 0, [], i, m;
    }

    /** Gives the document at the current place, or moves on to the next leaf. */
    method Fetch() returns (val: Option<DocId>)
      requires Valid() && node.Some?
      modifies this
      ensures Valid() && given == if val.Some? then old(given) + [val.value] else old(given)
      ensures (val.None? && node.Some? ==> Ahead() < old(Ahead())) && (node.Some? ==> Ahead() > 0)
    {
      var n := index.nodes[node.value];
      hide BPT.Valid, BPT.Entries, BPT.LeafPos, Answer;
      ghost var c := index.Entries();
      val := Here(n, c);
      if val.None? {
        Step(n);
      }
    }

    /** What the cursor gives from the leaf it stands on, if it does not end there. */
    method Here(n: Node, ghost c: seq<DocId>) returns (val: Option<DocId>)
      requires Valid() && node.Some? && n == index.nodes[node.value] && c == index.Entries()
      modifies this
      ensures Valid() && given == (if val.Some? then old(given) + [val.value] else old(given))
      ensures leaf == old(leaf) && base == old(base)
      ensures val.None? && node.Some? ==> node == old(node) && at == |n.ids|
      ensures node.Some? ==> Ahead() == old(Ahead()) > 0
    {
      hide BPT.Valid, BPT.Entries, Answer;
      val := None;
      StandsInside(c);
      if at < |n.ids| {
        if Stops(index.fields, opt, KeyOf(index.fields, docs, n.ids[at])) {
          node := None;
        } else {
          val := Some(n.ids[at]);
          given, taken := given + [n.ids[at]], taken + 1;
          if taken == LimitOf(opt) { node := None; } else { at := at + 1; }
        }
      }
    }

    lemma {:induction false} StandsInside(c: seq<DocId>)
      requires Valid() && node.Some? && c == index.Entries()
      ensures base + |index.nodes[node.value].ids| <= |c|
      ensures at < |index.nodes[node.value].ids| ==> c[base + at] == index.nodes[node.value].ids[at]
    {
    }

    /** A leaf that was read to its end is followed by the next one, if there is one. */
    lemma {:induction false} AtLeafEnd(n: Node)
      requires Valid() && node.Some? && n == index.nodes[node.value] && at == |n.ids|
      ensures n.next.None? ==> given == All()
      ensures n.next.Some? ==> index.LeafPos(n.next.value, leaf + 1, base + |n.ids|)
      ensures n.next.Some? ==> Scan(index.fields, docs, opt, index.Entries(), base + |n.ids|, given) == All()
    {
      hide *;
      Parts();
      index.NextPos(docs, node.value, leaf, base);
      ScanEnds(index.fields, docs, opt, index.Entries(), base + |n.ids|, given);
    }

    lemma {:induction false} Parts()
      requires Valid() && node.Some?
      ensures index.Sane(docs, {}) && index.LeafPos(node.value, leaf, base) && FitsAll(index.fields, opt)
      ensures node.value in index.nodes && index.nodes[node.value].Leaf?
      ensures Scan(index.fields, docs, opt, index.Entries(), base + at, given) == All()
    {
    }

    method Step(n: Node)
      requires Valid() && (node.Some? ==> n == index.nodes[node.value] && at == |n.ids|)
      modifies this
      ensures Valid() && given == old(given)
      ensures node.Some? ==> 0 < Ahead() < old(Ahead())
    {
      hide BPT.Valid, BPT.Entries, Answer, Scan, LeafAt;
      if node.Some? {
        AtLeafEnd(n);
        if n.next.Some? {
          node, at, leaf, base := n.next, 0, leaf + 1, base + |n.ids|;
        } else {
          node := None;
        }
      }
    }

    /** The next document of the range, if one is left. */
    method Next() returns (val: Option<DocId>)
      requires Valid()
      modifies this
      ensures Valid() && val == (if |old(given)| < |All()| then Some(All()[|old(given)|]) else None)
      ensures given == if val.Some? then old(given) + [val.value] else old(given)
    {
      hide BPT.Valid, BPT.Entries, BPT.LeafPos, Answer;
      val := None;
      while node.Some? && val.None?
        invariant Valid() && given == if val.Some? then old(given) + [val.value] else old(given)
        decreases if node.None? || val.Some? then 0 else 1 + Ahead()
      {
        val := Fetch();
      }
      if node.Some? { ScanExtends(index.fields, docs, opt, index.Entries(), base + at, given); }
    }
  }

  /** Opens a cursor. If the start bound admits nothing of an index that is not empty, the
      cursor is left without a position. */
  method OpenCursor(index: BPT, docs: Docs, opt: RangeOpt) returns (cur: Cursor?)
    requires index.Valid(docs) && FitsAll(index.fields, opt) && !opt.reverse
    ensures cur == null <==> !Startable(index.fields, docs, opt, index.Entries())
    ensures cur != null ==>
      fresh(cur) && cur.Valid() && cur.index == index && cur.docs == docs && cur.opt == opt && cur.given == []
  {
    hide BPT.Valid, BPT.Entries, Answer, Scan, Startable, Cursor.Valid, Cursor.Stands;
    var y, at, lost, i, m := Cursor.Begin(index, docs, opt);
    cur := null;
    if !lost { cur := new Cursor(index, docs, opt, y, at, i, m); }
  }

  // ----- what a cursor gives is ascending

  lemma {:induction false} SelectMembers(fields: seq<SortField>, docs: Docs, opt: RangeOpt, c: seq<DocId>)
    requires FitsAll(fields, opt)
    ensures forall x {:trigger x in Select(fields, docs, opt, c)} :: x in Select(fields, docs, opt, c) ==> x in c
  {
    if c != [] { SelectMembers(fields, docs, opt, c[1..]); }
  }

  lemma {:induction false} SelectAscends(fields: seq<SortField>, docs: Docs, opt: RangeOpt, c: seq<DocId>)
    requires FitsAll(fields, opt) && Ascending(fields, docs, c)
    ensures Ascending(fields, docs, Select(fields, docs, opt, c))
  {
    if c != [] {
      var r, s := Select(fields, docs, opt, c[1..]), Select(fields, docs, opt, c);
      forall i, j ensures PairInOrder(fields, docs, c[1..], i, j) { assert PairInOrder(fields, docs, c, i + 1, j + 1); }
      SelectAscends(fields, docs, opt, c[1..]);
      SelectMembers(fields, docs, opt, c[1..]);
      forall i, j ensures PairInOrder(fields, docs, s, i, j) {
        var d := |s| - |r|;
        assert PairInOrder(fields, docs, r, i - d, j - d);
        if 0 <= i < j < |s| && i < d {
          assert s[j] == r[j - d] && r[j - d] in r && s[j] in c[1..];
          var k :| 0 <= k < |c[1..]| && c[1..][k] == s[j];
          assert PairInOrder(fields, docs, c, 0, k + 1);
        }
      }
    }
  }

  lemma {:induction false} CursorAscends(cur: Cursor)
    requires cur.Valid()
    ensures Ascending(cur.index.fields, cur.docs, cur.All())
  {
    var fields, c := cur.index.fields, cur.index.Entries();
    SortedAscends(fields, cur.docs, c);
    SelectAscends(fields, cur.docs, cur.opt, c);
    var s := Select(fields, cur.docs, cur.opt, c);
    forall i, j ensures PairInOrder(fields, cur.docs, cur.All(), i, j) {
      assert PairInOrder(fields, cur.docs, s, i, j);
    }
  }

  // ----- merging cursors

  /** The cursor reads an index in the given order, gives `list` in its life and has given
      n documents of it. */
  ghost predicate Stage(cur: Cursor, fields: seq<SortField>, docs: Docs, list: seq<DocId>, n: nat)
    reads cur, cur.index
  {
    cur.Valid() && cur.index.fields == fields && cur.docs == docs && cur.All() == list && |cur.given| == n
  }

  method PullOne(cur: Cursor, ghost fields: seq<SortField>, ghost docs: Docs, ghost list: seq<DocId>, ghost n: nat)
      returns (val: Option<DocId>)
    requires Stage(cur, fields, docs, list, n)
    modifies cur
    ensures val == if n < |list| then Some(list[n]) else None
    ensures Stage(cur, fields, docs, list, if val.Some? then n + 1 else n)
  {
    hide BPT.Valid, BPT.Entries, Answer;
    val := cur.Next();
  }

  /** Different cursors over indexes in the same order, cursor k having given pos[k]
      documents of all[k]. */
  ghost predicate Agree(cursors: seq<Cursor>, fields: seq<SortField>, docs: Docs, all: seq<seq<DocId>>, pos: seq<nat>)
    reads cursors, set k {:trigger cursors[k]} | 0 <= k < |cursors| :: cursors[k].index
  {
    && |cursors| == |all| == |pos|
    && (forall i, j {:trigger cursors[i], cursors[j]} :: 0 <= i < j < |cursors| ==> cursors[i] != cursors[j])
    && forall k {:trigger cursors[k]} :: 0 <= k < |cursors| ==> Stage(cursors[k], fields, docs, all[k], pos[k])
  }

  /** Takes the next document from one of the cursors. */
  method Pull(cursors: seq<Cursor>, ghost fields: seq<SortField>, ghost docs: Docs, ghost all: seq<seq<DocId>>,
      ghost pos: seq<nat>, k: nat) returns (val: Option<DocId>)
    requires Agree(cursors, fields, docs, all, pos) && k < |cursors|
    modifies cursors[k]
    ensures val == Upcoming(all, pos, k)
    ensures Agree(cursors, fields, docs, all, if val.Some? then pos[k := pos[k] + 1] else pos)
  {
    hide Stage, BPT.Valid, BPT.Entries, Answer;
    val := PullOne(cursors[k], fields, docs, all[k], pos[k]);
    forall j | 0 <= j < |cursors| && j != k ensures Stage(cursors[j], fields, docs, all[j], pos[j]) {
      assert cursors[if j < k then j else k] != cursors[if j < k then k else j];
      assert old(Stage(cursors[j], fields, docs, all[j], pos[j]));
    }
  }

  /** All documents the cursors give agree on the first sort field. */
  ghost predicate SameHead(fields: seq<SortField>, docs: Docs, all: seq<seq<DocId>>)
    requires fields != []
  {
    forall x, y {:trigger InSome(all, x), InSome(all, y)} ::
      InSome(all, x) && InSome(all, y) ==> KeyOf(fields, docs, x).parts[0] == KeyOf(fields, docs, y).parts[0]
  }

  lemma {:induction false} TailAlike(fields: seq<SortField>, docs: Docs, all: seq<seq<DocId>>)
    requires fields != [] && SameHead(fields, docs, all)
    ensures Alike(fields, fields[1..], docs, all)
  {
    forall x, y | InSome(all, x) && InSome(all, y)
        ensures Compare(fields[1..], docs, x, y) == Compare(fields, docs, x, y) {
      TailOrder(fields, docs, x, y);
    }
  }

  /** Merges cursors and stops each as soon as it has passed the limit: the result is the
      first `limit` documents of the sorted union, none lost, none twice. Documents are
      placed by all sort fields, or by all but the first if they agree on that one. */
  method PRanges(cursors: seq<Cursor>, fields: seq<SortField>, docs: Docs, limit: Option<nat>, byTail: bool,
      ghost all: seq<seq<DocId>>) returns (r: seq<DocId>)
    requires EndsWithId(fields) && Agree(cursors, fields, docs, all, seq(|all|, _ => 0))
    requires byTail ==> SameHead(fields, docs, all)
    modifies cursors
    ensures forall u {:trigger IsUnion(fields, docs, all, u)} :: IsUnion(fields, docs, all, u) ==> r == Take(limit, u)
  {
    hide Agree, IsUnion;
    var sorter := fields;
    if byTail {
      sorter := fields[1..];
      TailAlike(fields, docs, all);
    }
    r := MergeCursors(cursors, fields, sorter, docs, limit, all);
  }

  method MergeCursors(cursors: seq<Cursor>, fields: seq<SortField>, sorter: seq<SortField>, docs: Docs,
      limit: Option<nat>, ghost all: seq<seq<DocId>>) returns (r: seq<DocId>)
    requires EndsWithId(fields) && Agree(cursors, fields, docs, all, seq(|all|, _ => 0))
    requires Alike(fields, sorter, docs, all)
    modifies cursors
    ensures forall u {:trigger IsUnion(fields, docs, all, u)} :: IsUnion(fields, docs, all, u) ==> r == Take(limit, u)
  {
    hide BPT.Valid, BPT.Entries, Answer, Cursor.Valid, Ascending, IsUnion, Alike;
    var curs: seq<Cur> := seq(|cursors|, k requires 0 <= k < |cursors| => Cur(k, None));
    ghost var pos: seq<nat> := seq(|all|, _ => 0);
    var res: seq<DocId> := [];
    AllAscend(cursors, fields, docs, all, pos);
    Begins(fields, docs, all, limit, curs, pos);
    hide Stage;
    while curs != []
      invariant Merging(fields, docs, all, limit, curs, pos, res) && Agree(cursors, fields, docs, all, pos)
      decreases Left(all, pos), |curs|
    {
      var val := Pull(cursors, fields, docs, all, pos, curs[0].id);
      curs, pos, res := Merge.Step(fields, sorter, docs, all, limit, curs, pos, res, val);
    }
    forall u | IsUnion(fields, docs, all, u) ensures Take(limit, res) == Take(limit, u) {
      MergedIsUnion(fields, docs, all, limit, pos, res, u);
    }
    r := Take(limit, res);
  }

  lemma {:induction false} AllAscend(cursors: seq<Cursor>, fields: seq<SortField>, docs: Docs, all: seq<seq<DocId>>,
      pos: seq<nat>)
    requires Agree(cursors, fields, docs, all, pos)
    ensures forall k {:trigger all[k]} :: 0 <= k < |all| ==> Ascending(fields, docs, all[k])
  {
    hide Ascending, Answer;
    forall k | 0 <= k < |all| ensures Ascending(fields, docs, all[k]) {
      assert Stage(cursors[k], fields, docs, all[k], pos[k]);
      CursorAscends(cursors[k]);
    }
  }
}
