/** Generated document ids: counters written in base 64. */
module DocIds {
  import opened Lists

  /** The alphabet of section 5 of RFC 4648: A to Z, a to z, 0 to 9, minus, underscore. */
  function Char(d: nat): (c: char)
    requires d < 64
    ensures DigitOf(c) == d
  {
    if d < 26 then 'A' + d as char
    else if d < 52 then 'a' + (d - 26) as char
    else if d < 62 then '0' + (d - 52) as char
    else if d == 62 then '-'
    else '_'
  }

  /** The digit a character stands for, -1 for one outside the alphabet. */
  function DigitOf(c: char): int
  {
    if 'A' <= c <= 'Z' then c as int - 'A' as int
    else if 'a' <= c <= 'z' then c as int - 'a' as int + 26
    else if '0' <= c <= '9' then c as int - '0' as int + 52
    else if c == '-' then 62
    else if c == '_' then 63
    else -1
  }

  const ALPHABET := "ABCDEFGHIJKLM" + "NOPQRSTUVWXYZ" + "abcdefghijklm" + "nopqrstuvwxyz" + "0123456789" + "-_"

  lemma {:induction false} Alphabet(d: nat)
    requires d < 64
    ensures Char(d) == ALPHABET[d]
  {
  }

  /** n written in base 64 without leading zeros. */
  function Written(n: nat): (s: string)
    ensures s != []
  {
    if n < 64 then [Char(n)] else Written(n / 64) + [Char(n % 64)]
  }

  /** The number a string of digits denotes. */
  function Denotes(s: string): int
  {
    if s == [] then 0 else 64 * Denotes(s[..|s| - 1]) + DigitOf(s[|s| - 1])
  }

  lemma {:induction false} WrittenDenotes(n: nat)
    ensures Denotes(Written(n)) == n
  {
    if n < 64 {
      assert Written(n)[..0] == [];
    } else {
      WrittenDenotes(n / 64);
      var s := Written(n);
      assert s[..|s| - 1] == Written(n / 64);
    }
  }

  /** No leading zero, and characters of the alphabet only. */
  ghost predicate Plain(s: string)
  {
    s != [] && (|s| > 1 ==> s[0] != 'A') && forall k {:trigger s[k]} :: 0 <= k < |s| ==> DigitOf(s[k]) >= 0
  }

  lemma {:induction false} WrittenPlain(n: nat)
    ensures Plain(Written(n))
    ensures Written(n) == "A" <==> n == 0
  {
    if n < 64 {
      assert DigitOf('A') == 0;
    } else {
      WrittenPlain(n / 64);
      var s, t := Written(n), Written(n / 64);
      assert s == t + [Char(n % 64)] && s[0] == t[0] && |s| > 1;
      assert |t| == 1 ==> t == [t[0]];
    }
  }

  /** Different counters give different ids. */
  lemma {:induction false} WrittenInjective(a: nat, b: nat)
    requires Written(a) == Written(b)
    ensures a == b
  {
    WrittenDenotes(a);
    WrittenDenotes(b);
  }

  method ToB64(n: nat) returns (result: string)
    ensures result == Written(n)
    ensures Denotes(result) == n && Plain(result)
  {
    hide Denotes, Plain, DigitOf;
    WrittenDenotes(n);
    WrittenPlain(n);
    if n == 0 { return [Char(0)]; }
    result := "";
    var m := n;
    assert Written(n) + result == Written(n);
    while m > 0
      invariant if m == 0 then result == Written(n) else Written(m) + result == Written(n)
    {
      assert m >= 64 ==> Written(m) + result == Written(m / 64) + ([Char(m % 64)] + result);
      assert m < 64 ==> m % 64 == m && m / 64 == 0;
      result := [Char(m % 64)] + result;
      m := m / 64;
    }
  }

  datatype GenResult = Id(id: string) | NoDir

  /** A directory: the counter of its generated ids, if any yet, and the documents in it. */
  class Dir {
    var known: bool
    var autoid: Option<nat>
    var docs: set<string>

    constructor ()
      ensures known && autoid == None && docs == {}
    {
      known, autoid, docs := true, None, {};
    }

    /** The ids that counters below i give. */
    static ghost function Below(i: nat): set<string>
    {
      if i == 0 then {} else Below(i - 1) + {Written(i - 1)}
    }

    static lemma {:induction false} BelowOnly(i: nat, j: nat)
      ensures Written(j) in Below(i) <==> j < i
    {
      if i > 0 {
        BelowOnly(i - 1, j);
        if Written(j) == Written(i - 1) { WrittenInjective(j, i - 1); }
      }
    }

    /** Finds an id that is not in use, starting from the counter after the last one given.
        There is one, because only finitely many are in use and no two counters agree. */
    method GenDocID() returns (r: GenResult)
      modifies this`autoid
      ensures !known ==> r == NoDir && autoid == old(autoid)
      ensures known ==> r.Id? && r.id !in docs
      ensures known ==>
        autoid.Some? && r.id == Written(autoid.value) && (old(autoid).Some? ==> autoid.value > old(autoid).value)
      ensures known ==> forall j: nat {:trigger Written(j)} ::
        (if old(autoid).Some? then old(autoid).value + 1 else 0) <= j < autoid.value ==> Written(j) in docs
    {
      hide Written, Denotes, Plain;
      if !known { return NoDir; }
      var i: nat := if autoid.None? then 0 else autoid.value + 1;
      var id := ToB64(i);
      while id in docs
        invariant autoid == old(autoid)
        invariant id == Written(i) && i >= (if autoid.Some? then autoid.value + 1 else 0)
        invariant forall j: nat {:trigger Written(j)} :: (if autoid.Some? then autoid.value + 1 else 0) <= j < i ==>
          Written(j) in docs
        decreases docs - Below(i)
      {
        BelowOnly(i, i);
        assert Written(i) in docs - Below(i) && Written(i) !in docs - Below(i + 1);
        i := i + 1;
        id := ToB64(i);
      }
      autoid := Some(i);
      r := Id(id);
    }

    /** Over any run of generated ids with documents coming and going in between, no id is
        given twice: every id given equals a counter above all earlier ones. */
    method GenMany(changes: seq<set<string>>) returns (ids: seq<string>)
      requires known
      modifies this`autoid, this`docs
      ensures |ids| == |changes|
      ensures forall i {:trigger ids[i]} :: 0 <= i < |ids| ==> ids[i] !in changes[i]
      ensures forall i, j {:trigger ids[i], ids[j]} :: 0 <= i < j < |ids| ==> ids[i] != ids[j]
    {
      ids := [];
      ghost var ns: seq<nat> := [];
      for k := 0 to |changes|
        invariant |ids| == |ns| == k
        invariant forall i {:trigger ids[i]} {:trigger ns[i]} :: 0 <= i < k ==>
          ids[i] == Written(ns[i]) && ids[i] !in changes[i]
        invariant forall i, j {:trigger ns[i], ns[j]} :: 0 <= i < j < k ==> ns[i] < ns[j]
        invariant k > 0 ==> autoid == Some(ns[k - 1])
      {
        docs := changes[k];
        var r := GenDocID();
        ids := ids + [r.id];
        ns := ns + [autoid.value];
      }
      forall i, j | 0 <= i < j < |ids| ensures ids[i] != ids[j] {
        assert ns[i] < ns[j];
        if ids[i] == ids[j] { WrittenInjective(ns[i], ns[j]); }
      }
    }
  }
}
