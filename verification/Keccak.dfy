/** The sponge around a permutation of 200 bytes: bytes are absorbed into a state of
    which blockLen bytes are exposed, then squeezed out of it. */
module Keccak {
  import opened Lists

  type Byte = bv8

  const WIDTH := 200

  function Xor(a: Byte, b: Byte): Byte { a ^ b }

  predicate HighBit(b: Byte) { b & 0x80 != 0 }

  ghost predicate Permutes(perm: seq<Byte> -> seq<Byte>)
  {
    forall s {:trigger perm(s)} :: |s| == WIDTH ==> |perm(s)| == WIDTH
  }

  /** The state and the position of the next byte to absorb. */
  datatype Sponge = Sponge(state: seq<Byte>, pos: nat)

  ghost predicate Fits(perm: seq<Byte> -> seq<Byte>, rate: nat, s: Sponge)
  {
    Permutes(perm) && |s.state| == WIDTH && s.pos < rate < WIDTH
  }

  /** One byte is xored in; a full block is permuted. */
  ghost function Feed(perm: seq<Byte> -> seq<Byte>, rate: nat, s: Sponge, b: Byte): (r: Sponge)
    requires Fits(perm, rate, s)
    ensures Fits(perm, rate, r)
  {
    var t := s.state[s.pos := Xor(s.state[s.pos], b)];
    if s.pos + 1 == rate then Sponge(perm(t), 0) else Sponge(t, s.pos + 1)
  }

  ghost function Absorb(perm: seq<Byte> -> seq<Byte>, rate: nat, s: Sponge, data: seq<Byte>): (r: Sponge)
    requires Fits(perm, rate, s)
    ensures Fits(perm, rate, r)
    decreases data
  {
    if data == [] then s else Absorb(perm, rate, Feed(perm, rate, s, data[0]), data[1..])
  }

  /** Absorbing does not depend on how the input is cut into chunks. */
  lemma {:induction false} AbsorbChunks(perm: seq<Byte> -> seq<Byte>, rate: nat, s: Sponge, a: seq<Byte>, b: seq<Byte>)
    requires Fits(perm, rate, s)
    ensures Absorb(perm, rate, s, a + b) == Absorb(perm, rate, Absorb(perm, rate, s, a), b)
    decreases a
  {
    if a == [] {
      assert a + b == b;
    } else {
      assert (a + b)[0] == a[0] && (a + b)[1..] == a[1..] + b;
      AbsorbChunks(perm, rate, Feed(perm, rate, s, a[0]), a[1..], b);
    }
  }

  lemma {:induction false} AbsorbOne(perm: seq<Byte> -> seq<Byte>, rate: nat, s: Sponge, b: Byte)
    requires Fits(perm, rate, s)
    ensures Absorb(perm, rate, s, [b]) == Feed(perm, rate, s, b)
  {
    assert [b][1..] == [];
  }

  // ----- section 4 of FIPS 202

  /** The state with a block xored onto its first bytes. */
  ghost function Xored(state: seq<Byte>, block: seq<Byte>): (r: seq<Byte>)
    requires |block| <= |state|
    ensures |r| == |state|
  {
    seq(|state|, i requires 0 <= i < |state| => if i < |block| then Xor(state[i], block[i]) else state[i])
  }

  /** The state after the blocks of a padded message. */
  ghost function AbsorbBlocks(perm: seq<Byte> -> seq<Byte>, rate: nat, state: seq<Byte>,
      padded: seq<Byte>): (r: seq<Byte>)
    requires Permutes(perm) && |state| == WIDTH && 0 < rate < WIDTH
    ensures |r| == WIDTH
    decreases |padded|
  {
    if |padded| < rate then state else AbsorbBlocks(perm, rate, perm(Xored(state, padded[..rate])), padded[rate..])
  }

  /** The first d bytes squeezed out. */
  ghost function Squeeze(perm: seq<Byte> -> seq<Byte>, rate: nat, state: seq<Byte>, d: nat): (r: seq<Byte>)
    requires Permutes(perm) && |state| == WIDTH && 0 < rate < WIDTH
    ensures |r| == d
    decreases d
  {
    if d <= rate then state[..d] else state[..rate] + Squeeze(perm, rate, perm(state), d - rate)
  }

  ghost function Zeros(n: nat): (z: seq<Byte>)
    ensures |z| == n && forall i {:trigger z[i]} :: 0 <= i < n ==> z[i] == 0
  {
    seq(n, i => 0 as Byte)
  }

  /** The padding of section 5.1 at the level of bytes: the suffix with the first padding
      bit, zeros, and the final bit, to the next multiple of rate. */
  ghost function Padding(rate: nat, suffix: Byte, n: nat): (p: seq<Byte>)
    requires 0 < rate
    ensures 1 <= |p| <= rate && (n + |p|) % rate == 0
  {
    var k := rate - n % rate;
    assert (n + k) % rate == 0 by { assert n + k == rate * (n / rate + 1); MultipleMod(rate, n / rate + 1); }
    if k == 1 then [Xor(suffix, 0x80)] else [suffix] + Zeros(k - 2) + [0x80]
  }

  /** The bits of a byte, the least significant first, as FIPS 202 reads them. */
  function BitsOf(b: Byte): (r: seq<bool>)
    ensures |r| == 8
  {
    [b & 0x01 != 0, b & 0x02 != 0, b & 0x04 != 0, b & 0x08 != 0, b & 0x10 != 0, b & 0x20 != 0, b & 0x40 != 0,
        b & 0x80 != 0]
  }

  /** Xor is exclusive or on bits. */
  lemma {:induction false} XorBits(a: Byte, b: Byte, i: nat)
    requires i < 8
    ensures BitsOf(Xor(a, b))[i] <==> BitsOf(a)[i] != BitsOf(b)[i]
  {
    MaskOf(a, i);
    MaskOf(b, i);
    MaskOf(Xor(a, b), i);
    MaskXor(a, b, Mask(i));
  }

  /** Doing it twice takes it back. */
  lemma {:induction false} XorTwice(a: Byte, b: Byte)
    ensures Xor(Xor(a, b), b) == a
  {
  }

  function Mask(i: nat): (m: Byte)
    requires i < 8
    ensures m in {0x01, 0x02, 0x04, 0x08, 0x10, 0x20, 0x40, 0x80}
  {
    if i == 0 then 0x01 else if i == 1 then 0x02 else if i == 2 then 0x04 else if i == 3 then 0x08
    else if i == 4 then 0x10 else if i == 5 then 0x20 else if i == 6 then 0x40 else 0x80
  }

  lemma {:induction false} MaskOf(b: Byte, i: nat)
    requires i < 8
    ensures BitsOf(b)[i] == (b & Mask(i) != 0)
  {
  }

  lemma {:induction false} MaskXor(a: Byte, b: Byte, m: Byte)
    requires m in {0x01, 0x02, 0x04, 0x08, 0x10, 0x20, 0x40, 0x80}
    ensures Xor(a, b) & m != 0 <==> (a & m != 0) != (b & m != 0)
  {
  }

  function BitString(bytes: seq<Byte>): (r: seq<bool>)
    ensures |r| == 8 * |bytes|
  {
    if bytes == [] then [] else BitsOf(bytes[0]) + BitString(bytes[1..])
  }

  lemma {:induction false} BitAt(bytes: seq<Byte>, j: nat)
    requires j < 8 * |bytes|
    ensures BitString(bytes)[j] == BitsOf(bytes[j / 8])[j % 8]
    decreases bytes
  {
    hide BitsOf;
    if j >= 8 {
      BitAt(bytes[1..], j - 8);
      assert j / 8 == (j - 8) / 8 + 1 && j % 8 == (j - 8) % 8;
      assert bytes[j / 8] == bytes[1..][(j - 8) / 8];
    }
  }

  /** Absorbing a block, bit by bit: the state with the block, filled up with zeros, xored onto it. */
  lemma {:induction false} XoredBits(state: seq<Byte>, block: seq<Byte>, j: nat)
    requires |block| <= |state| && j < 8 * |state|
    ensures BitString(Xored(state, block))[j] <==> BitString(state)[j] != (j < 8 * |block| && BitString(block)[j])
  {
    hide Xor, BitString, BitsOf;
    BitAt(Xored(state, block), j);
    BitAt(state, j);
    if j < 8 * |block| {
      BitAt(block, j);
      XorBits(state[j / 8], block[j / 8], j % 8);
    }
  }

  lemma {:induction false} BitStringConcat(x: seq<Byte>, y: seq<Byte>)
    ensures BitString(x + y) == BitString(x) + BitString(y)
  {
    if x == [] {
      assert x + y == y;
    } else {
      assert (x + y)[1..] == x[1..] + y;
      BitStringConcat(x[1..], y);
    }
  }

  lemma {:induction false} ZeroBits(n: nat)
    ensures BitString(Zeros(n)) == Repeat(false, 8 * n)
  {
    if n > 0 {
      ZeroBits(n - 1);
      assert Zeros(n)[1..] == Zeros(n - 1);
      var r := Repeat(false, 8 * n);
      assert BitsOf(0) == r[..8] && Repeat(false, 8 * (n - 1)) == r[8..];
    }
  }

  /** With suffix 1 the padding is a one, zeros, and a one, bit by bit. */
  lemma {:induction false} PaddingBits(rate: nat, n: nat)
    requires 0 < rate
    ensures BitString(Padding(rate, 1, n)) == [true] + Repeat(false, 8 * |Padding(rate, 1, n)| - 2) + [true]
  {
    var p := Padding(rate, 1, n);
    var k := |p|;
    var want := [true] + Repeat(false, 8 * k - 2) + [true];
    EdgeBits();
    if k == 1 {
      assert p == [0x81] && p[1..] == [];
    } else {
      BitStringConcat([1] + Zeros(k - 2), [0x80]);
      BitStringConcat([1], Zeros(k - 2));
      ZeroBits(k - 2);
      var one: seq<Byte>, last: seq<Byte> := [1], [0x80];
      assert one[1..] == [] && last[1..] == [];
      hide BitString, BitsOf, Repeat, Padding;
      assert BitString(p) == BitsOf(1) + Repeat(false, 8 * (k - 2)) + BitsOf(0x80);
    }
  }

  lemma {:induction false} EdgeBits()
    ensures BitsOf(1) == [true] + Repeat(false, 7) && BitsOf(0x80) == Repeat(false, 7) + [true]
    ensures BitsOf(0x81) == [true] + Repeat(false, 6) + [true] && Xor(1, 0x80) == 0x81
  {
  }

  lemma {:induction false} MultipleMod(d: nat, q: nat)
    requires d > 0
    ensures (d * q) % d == 0
  {
    ModOf(d, q, 0);
  }

  lemma {:induction false} ModOf(d: nat, q: nat, r: nat)
    requires r < d
    ensures (d * q + r) % d == r
  {
    var p, m := (d * q + r) / d, (d * q + r) % d;
    assert d * q + r == d * p + m;
    if q < p { Le(d, q + 1, p); }
    if p < q { Le(d, p + 1, q); }
  }

  lemma {:induction false} Le(d: nat, a: nat, b: nat)
    requires a <= b
    ensures d * a <= d * b
  {
    assert d * (b - a) >= 0;
  }

  // ----- feeding bytes is absorbing blocks

  /** Fewer bytes than the rest of the block are only xored in. */
  lemma {:induction false} AbsorbWithin(perm: seq<Byte> -> seq<Byte>, rate: nat, s: Sponge, data: seq<Byte>)
    requires Fits(perm, rate, s) && s.pos + |data| < rate
    ensures Absorb(perm, rate, s, data).pos == s.pos + |data|
    ensures forall i {:trigger Absorb(perm, rate, s, data).state[i]} :: 0 <= i < WIDTH ==>
      Absorb(perm, rate, s, data).state[i] == if s.pos <= i < s.pos + |data| then Xor(s.state[i], data[i - s.pos])
          else s.state[i]
    decreases data
  {
    if data != [] {
      var s' := Feed(perm, rate, s, data[0]);
      AbsorbWithin(perm, rate, s', data[1..]);
      forall i | 0 <= i < WIDTH
        ensures Absorb(perm, rate, s, data).state[i] == if s.pos <= i < s.pos + |data| then
          Xor(s.state[i], data[i - s.pos]) else s.state[i] {
        assert i > s.pos && i < s.pos + |data| ==> data[1..][i - s'.pos] == data[i - s.pos];
      }
    }
  }

  /** A whole block leads to the permuted state and an empty block. */
  lemma {:induction false} AbsorbBlock(perm: seq<Byte> -> seq<Byte>, rate: nat, state: seq<Byte>, block: seq<Byte>)
    requires Fits(perm, rate, Sponge(state, 0)) && |block| == rate
    ensures Absorb(perm, rate, Sponge(state, 0), block) == Sponge(perm(Xored(state, block)), 0)
  {
    var n := rate - 1;
    var a, b := block[..n], [block[n]];
    assert block == a + b;
    AbsorbChunks(perm, rate, Sponge(state, 0), a, b);
    AbsorbWithin(perm, rate, Sponge(state, 0), a);
    var m := Absorb(perm, rate, Sponge(state, 0), a);
    assert b[1..] == [];
    assert Absorb(perm, rate, m, b) == Feed(perm, rate, m, block[n]);
    LastOfBlock(state, block, m.state);
  }

  lemma {:induction false} LastOfBlock(state: seq<Byte>, block: seq<Byte>, t: seq<Byte>)
    requires |state| == |t| == WIDTH && 0 < |block| < WIDTH
    requires forall i {:trigger t[i]} :: 0 <= i < WIDTH ==>
      t[i] == if i < |block| - 1 then Xor(state[i], block[..|block| - 1][i]) else state[i]
    ensures t[|block| - 1 := Xor(t[|block| - 1], block[|block| - 1])] == Xored(state, block)
  {
    hide Xor;
    var n := |block| - 1;
    var u := t[n := Xor(t[n], block[n])];
    forall i | 0 <= i < WIDTH ensures u[i] == Xored(state, block)[i] {
      assert i < n ==> block[..n][i] == block[i];
      assert i != n ==> u[i] == t[i];
    }
  }

  /** Bytes that make up whole blocks are absorbed block by block. */
  lemma {:induction false} AbsorbIsBlockwise(perm: seq<Byte> -> seq<Byte>, rate: nat, state: seq<Byte>,
      padded: seq<Byte>)
    requires Fits(perm, rate, Sponge(state, 0)) && |padded| % rate == 0
    ensures Absorb(perm, rate, Sponge(state, 0), padded) == Sponge(AbsorbBlocks(perm, rate, state, padded), 0)
    decreases |padded|
  {
    if |padded| < rate {
      assert padded == [] by { ShortMultiple(|padded|, rate); }
    } else {
      var a, b := padded[..rate], padded[rate..];
      assert padded == a + b;
      AbsorbChunks(perm, rate, Sponge(state, 0), a, b);
      AbsorbBlock(perm, rate, state, a);
      DropMultiple(|padded|, rate);
      AbsorbIsBlockwise(perm, rate, perm(Xored(state, a)), b);
    }
  }

  lemma {:induction false} ShortMultiple(n: nat, d: nat)
    requires n < d && n % d == 0
    ensures n == 0
  {
    assert n == d * (n / d) + n % d;
    if n / d > 0 { Le(d, 1, n / d); }
  }

  lemma {:induction false} DropMultiple(n: nat, d: nat)
    requires 0 < d <= n && n % d == 0
    ensures (n - d) % d == 0
  {
    var q := n / d;
    assert n == d * q;
    assert q > 0;
    assert n - d == d * (q - 1);
    MultipleMod(d, q - 1);
  }

  // ----- finishing is padding

  /** What finishing does to the state. */
  ghost function Finished(perm: seq<Byte> -> seq<Byte>, rate: nat, suffix: Byte, s: Sponge): (r: seq<Byte>)
    requires Fits(perm, rate, s)
    ensures |r| == WIDTH
  {
    var t := s.state[s.pos := Xor(s.state[s.pos], suffix)];
    var u := if HighBit(suffix) && s.pos == rate - 1 then perm(t) else t;
    perm(u[rate - 1 := Xor(u[rate - 1], 0x80)])
  }

  lemma {:induction false} XorFacts(a: Byte, b: Byte, c: Byte)
    ensures Xor(Xor(a, b), c) == Xor(a, Xor(b, c)) && Xor(a, 0) == a
  {
  }

  lemma {:induction false} AbsorbZeros(perm: seq<Byte> -> seq<Byte>, rate: nat, s: Sponge, n: nat)
    requires Fits(perm, rate, s) && s.pos + n < rate
    ensures Absorb(perm, rate, s, Zeros(n)) == Sponge(s.state, s.pos + n)
  {
    AbsorbWithin(perm, rate, s, Zeros(n));
    var r := Absorb(perm, rate, s, Zeros(n));
    forall i | 0 <= i < WIDTH ensures r.state[i] == s.state[i] {
      assert r.state[i] == if s.pos <= i < s.pos + n then Xor(s.state[i], Zeros(n)[i - s.pos]) else s.state[i];
      XorFacts(s.state[i], 0, 0);
    }
    assert r.state == s.state;
  }

  /** Finishing absorbs the padding that fills up the block. */
  lemma {:induction false} FinishPads(perm: seq<Byte> -> seq<Byte>, rate: nat, suffix: Byte, s: Sponge, n: nat)
    requires Fits(perm, rate, s) && !HighBit(suffix) && s.pos == n % rate
    ensures Absorb(perm, rate, s, Padding(rate, suffix, n)) == Sponge(Finished(perm, rate, suffix, s), 0)
  {
    hide Xor;
    var k := rate - s.pos;
    if k == 1 {
      XorFacts(s.state[s.pos], suffix, 0x80);
      var t := s.state[s.pos := Xor(s.state[s.pos], suffix)];
      assert t[rate - 1 := Xor(t[rate - 1], 0x80)] == s.state[s.pos := Xor(s.state[s.pos], Xor(suffix, 0x80))];
    } else {
      var s1 := Feed(perm, rate, s, suffix);
      AbsorbZeros(perm, rate, s1, k - 2);
      var s2 := Sponge(s1.state, s1.pos + (k - 2));
      AbsorbChunks(perm, rate, s, [suffix] + Zeros(k - 2), [0x80]);
      AbsorbChunks(perm, rate, s, [suffix], Zeros(k - 2));
    }
  }

  lemma {:induction false} PositionAfter(perm: seq<Byte> -> seq<Byte>, rate: nat, s: Sponge, data: seq<Byte>)
    requires Fits(perm, rate, s)
    ensures Absorb(perm, rate, s, data).pos == (s.pos + |data|) % rate
    decreases data
  {
    if data == [] {
      SmallMod(s.pos, rate);
    } else {
      var s' := Feed(perm, rate, s, data[0]);
      PositionAfter(perm, rate, s', data[1..]);
      if s.pos + 1 == rate { DropOne(s.pos + |data|, rate); }
    }
  }

  lemma {:induction false} SmallMod(n: nat, d: nat)
    requires n < d
    ensures n % d == n
  {
  }

  lemma {:induction false} DropOne(n: nat, d: nat)
    requires 0 < d <= n
    ensures n % d == (n - d) % d
  {
    var q, r := n / d, n % d;
    assert n == d * q + r;
    assert q > 0;
    assert n - d == d * (q - 1) + r;
    ModOf(d, q - 1, r);
  }

  /** The state after absorbing a message and finishing is that of the sponge on the padded message. */
  lemma {:induction false} FinishIsSponge(perm: seq<Byte> -> seq<Byte>, rate: nat, suffix: Byte, m: seq<Byte>)
    requires Permutes(perm) && 0 < rate < WIDTH && !HighBit(suffix)
    ensures Finished(perm, rate, suffix, Absorb(perm, rate, Sponge(Zeros(WIDTH), 0), m)) ==
      AbsorbBlocks(perm, rate, Zeros(WIDTH), m + Padding(rate, suffix, |m|))
  {
    var s0 := Sponge(Zeros(WIDTH), 0);
    PositionAfter(perm, rate, s0, m);
    FinishPads(perm, rate, suffix, Absorb(perm, rate, s0, m), |m|);
    AbsorbChunks(perm, rate, s0, m, Padding(rate, suffix, |m|));
    AbsorbIsBlockwise(perm, rate, Zeros(WIDTH), m + Padding(rate, suffix, |m|));
  }

  // ----- squeezing byte by byte

  /** n bytes of output from position k of the current block on. */
  ghost function Stream(perm: seq<Byte> -> seq<Byte>, rate: nat, state: seq<Byte>, k: nat, n: nat): (r: seq<Byte>)
    requires Permutes(perm) && |state| == WIDTH && 0 < rate < WIDTH && k <= rate
    ensures |r| == n
    decreases n, k
  {
    if n == 0 then []
    else if k == rate then Stream(perm, rate, perm(state), 0, n)
    else [state[k]] + Stream(perm, rate, state, k + 1, n - 1)
  }

  lemma {:induction false} StreamWithin(perm: seq<Byte> -> seq<Byte>, rate: nat, state: seq<Byte>, k: nat, take: nat,
      n: nat)
    requires Permutes(perm) && |state| == WIDTH && 0 < rate < WIDTH && k + take <= rate && take <= n
    ensures Stream(perm, rate, state, k, n) == state[k..k + take] + Stream(perm, rate, state, k + take, n - take)
    decreases take
  {
    if take > 0 {
      StreamWithin(perm, rate, state, k + 1, take - 1, n - 1);
      assert state[k..k + take] == [state[k]] + state[k + 1..k + take];
    }
  }

  lemma {:induction false} StreamIsSqueeze(perm: seq<Byte> -> seq<Byte>, rate: nat, state: seq<Byte>, n: nat)
    requires Permutes(perm) && |state| == WIDTH && 0 < rate < WIDTH
    ensures Stream(perm, rate, state, 0, n) == Squeeze(perm, rate, state, n)
    decreases n
  {
    if n <= rate {
      StreamWithin(perm, rate, state, 0, n, n);
      assert state[0..n] == state[..n];
    } else {
      StreamWithin(perm, rate, state, 0, rate, n);
      StreamIsSqueeze(perm, rate, perm(state), n - rate);
      assert state[0..rate] == state[..rate];
    }
  }

  // ----- the machine

  class Keccak {
    const perm: seq<Byte> -> seq<Byte>
    const blockLen: nat
    const suffix: Byte
    const state: array<Byte>
    var pos: nat
    var posOut: nat
    var finished: bool
    var destroyed: bool

    ghost predicate Valid()
      reads this, state
    {
      && Permutes(perm) && 0 < blockLen < WIDTH && state.Length == WIDTH
      && pos < blockLen && posOut <= blockLen
    }

    ghost function Contents(): Sponge
      reads this, state
    {
      Sponge(state[..], pos)
    }

    constructor (perm: seq<Byte> -> seq<Byte>, blockLen: nat, suffix: Byte)
      requires Permutes(perm) && 0 < blockLen < WIDTH
      ensures Valid() && this.perm == perm && this.blockLen == blockLen && this.suffix == suffix
      ensures Contents() == Sponge(Zeros(WIDTH), 0) && posOut == 0 && !finished && !destroyed
      ensures fresh(state)
    {
      this.perm, this.blockLen, this.suffix := perm, blockLen, suffix;
      state := new Byte[WIDTH](_ => 0);
      pos, posOut, finished, destroyed := 0, 0, false, false;
      new;
      assert state[..] == Zeros(WIDTH);
    }

    /** Permutes the state; the next byte in or out is the first of the block. */
    method Permute()
      requires Permutes(perm) && state.Length == WIDTH
      modifies this`pos, this`posOut, state
      ensures state[..] == perm(old(state[..])) && pos == 0 && posOut == 0
    {
      var s := perm(state[..]);
      forall i | 0 <= i < WIDTH { state[i] := s[i]; }
      assert state[..] == s;
      pos, posOut := 0, 0;
    }

    /** Absorbs more input, unless the output was already asked for. */
    method Update(data: seq<Byte>) returns (ok: bool)
      requires Valid()
      modifies this`pos, this`posOut, state
      ensures Valid() && ok == (!destroyed && !finished)
      ensures Contents() == if ok then Absorb(perm, blockLen, old(Contents()), data) else old(Contents())
    {
      hide Feed, Xor;
      if destroyed || finished { return false; }
      var p := 0;
      assert data[0..] == data;
      while p < |data|
        invariant p <= |data| && Valid()
        invariant Absorb(perm, blockLen, Contents(), data[p..]) == Absorb(perm, blockLen, old(Contents()), data)
        decreases |data| - p
      {
        var take := if blockLen - pos < |data| - p then blockLen - pos else |data| - p;
        ghost var c := Contents();
        XorIn(data, p, take);
        if pos == blockLen { Permute(); }
        assert data[p..] == data[p..p + take] + data[p + take..];
        AbsorbChunks(perm, blockLen, c, data[p..p + take], data[p + take..]);
        p := p + take;
      }
      assert data[p..] == [];
      ok := true;
    }

    /** Xors bytes onto the rest of the current block; it may become full. */
    method XorIn(data: seq<Byte>, p: nat, take: nat)
      requires Valid() && p + take <= |data| && pos + take <= blockLen
      modifies this`pos, state
      ensures pos == old(pos) + take
      ensures Absorb(perm, blockLen, old(Contents()), data[p..p + take]) == if pos < blockLen then Contents()
        else Sponge(perm(state[..]), 0)
    {
      hide Xor, Feed;
      ghost var c0 := Contents();
      assert data[p..p] == [];
      for i := 0 to take
        invariant pos == c0.pos + i && state.Length == WIDTH
        invariant Absorb(perm, blockLen, c0, data[p..p + i]) == if pos < blockLen then Contents()
          else Sponge(perm(state[..]), 0)
      {
        assert data[p..p + i + 1] == data[p..p + i] + [data[p + i]];
        AbsorbChunks(perm, blockLen, c0, data[p..p + i], [data[p + i]]);
        XorByte(data[p + i]);
      }
    }

    method XorByte(b: Byte)
      requires Valid()
      modifies this`pos, state
      ensures pos == old(pos) + 1
      ensures Absorb(perm, blockLen, old(Contents()), [b]) == if pos < blockLen then Contents()
        else Sponge(perm(state[..]), 0)
    {
      hide Xor;
      ghost var c := Contents();
      state[pos] := Xor(state[pos], b);
      assert state[..] == c.state[c.pos := Xor(c.state[c.pos], b)];
      pos := pos + 1;
      AbsorbOne(perm, blockLen, c, b);
    }

    /** Pads and permutes, once. */
    method Finish()
      requires Valid()
      modifies this`pos, this`posOut, this`finished, state
      ensures Valid() && finished
      ensures old(finished) ==> state[..] == old(state[..]) && pos == old(pos) && posOut == old(posOut)
      ensures !old(finished) ==>
        state[..] == Finished(perm, blockLen, suffix, old(Contents())) && pos == 0 && posOut == 0
    {
      hide Xor, HighBit;
      if finished { return; }
      finished := true;
      ghost var s := state[..];
      var at := pos;
      state[at] := Xor(state[at], suffix);
      assert state[..] == s[at := Xor(s[at], suffix)];
      if HighBit(suffix) && at == blockLen - 1 { Permute(); }
      ghost var u := state[..];
      state[blockLen - 1] := Xor(state[blockLen - 1], 0x80);
      assert state[..] == u[blockLen - 1 := Xor(u[blockLen - 1], 0x80)];
      Permute();
    }

    /** Fills out with the next bytes of output, finishing first if that is still to be done. */
    method WriteInto(out: array<Byte>) returns (ok: bool)
      requires Valid() && out != state
      modifies this`pos, this`posOut, this`finished, state, out
      ensures Valid() && ok == !destroyed
      ensures !ok ==> out[..] == old(out[..]) && state[..] == old(state[..])
      ensures ok && old(finished) ==> out[..] == Stream(perm, blockLen, old(state[..]), old(posOut), out.Length)
      ensures ok && !old(finished) ==>
        out[..] == Stream(perm, blockLen, Finished(perm, blockLen, suffix, old(Contents())), 0, out.Length)
    {
      hide Xor, HighBit, Finished;
      if destroyed { return false; }
      Finish();
      ghost var whole := Stream(perm, blockLen, state[..], posOut, out.Length);
      var p := 0;
      while p < out.Length
        invariant p <= out.Length && Valid()
        invariant out[..p] + Stream(perm, blockLen, state[..], posOut, out.Length - p) == whole
        decreases out.Length - p
      {
        if posOut >= blockLen { Permute(); }
        p := CopyOut(out, p);
      }
      assert out[..p] == out[..] && Stream(perm, blockLen, state[..], posOut, 0) == [];
      ok := true;
    }

    method Copy(out: array<Byte>, p: nat, take: nat)
      requires out != state && p + take <= out.Length && posOut + take <= state.Length
      modifies out
      ensures out[..p + take] == old(out[..p]) + state[..][posOut..posOut + take] && state[..] == old(state[..])
    {
      forall i | 0 <= i < take { out[p + i] := state[posOut + i]; }
      ghost var a, b := out[..p + take], old(out[..p]) + state[..][posOut..posOut + take];
      assert |a| == |b|;
      forall i | 0 <= i < |a| ensures a[i] == b[i] {
        assert a[i] == out[i];
        if i >= p { assert b[i] == state[posOut + (i - p)] && out[p + (i - p)] == state[posOut + (i - p)]; }
      }
    }

    /** Copies the rest of the block, or as much of it as there is room for. */
    method CopyOut(out: array<Byte>, p: nat) returns (p': nat)
      requires Valid() && out != state && p < out.Length && posOut < blockLen
      modifies this`posOut, out
      ensures Valid() && p < p' <= out.Length && state[..] == old(state[..])
      ensures out[..p'] + Stream(perm, blockLen, state[..], posOut, out.Length - p') ==
        old(out[..p]) + Stream(perm, blockLen, old(state[..]), old(posOut), out.Length - p)
    {
      hide Stream;
      var take := if blockLen - posOut < out.Length - p then blockLen - posOut else out.Length - p;
      Copy(out, p, take);
      StreamWithin(perm, blockLen, state[..], posOut, take, out.Length - p);
      posOut := posOut + take;
      p' := p + take;
    }
  }

  /** Whatever chunks a message comes in, hashing it gives the sponge of section 4 of
      FIPS 202 on the message padded as in section 5.1. */
  method Hash(perm: seq<Byte> -> seq<Byte>, rate: nat, suffix: Byte, chunks: seq<seq<Byte>>, out: array<Byte>)
    requires Permutes(perm) && 0 < rate < WIDTH && !HighBit(suffix)
    modifies out
    ensures out[..] == Squeeze(perm, rate,
      AbsorbBlocks(perm, rate, Zeros(WIDTH), Joined(chunks) + Padding(rate, suffix, |Joined(chunks)|)), out.Length)
  {
    var k := new Keccak(perm, rate, suffix);
    assert chunks[..0] == [];
    for i := 0 to |chunks|
      invariant k.Valid() && !k.finished && !k.destroyed && fresh(k) && fresh(k.state)
      invariant k.Contents() == Absorb(perm, rate, Sponge(Zeros(WIDTH), 0), Joined(chunks[..i]))
    {
      var ok := k.Update(chunks[i]);
      AbsorbChunks(perm, rate, Sponge(Zeros(WIDTH), 0), Joined(chunks[..i]), chunks[i]);
      assert chunks[..i + 1][..i] == chunks[..i];
    }
    assert chunks[..|chunks|] == chunks;
    var ok := k.WriteInto(out);
    FinishIsSponge(perm, rate, suffix, Joined(chunks));
    StreamIsSqueeze(perm, rate,
        AbsorbBlocks(perm, rate, Zeros(WIDTH), Joined(chunks) + Padding(rate, suffix, |Joined(chunks)|)), out.Length);
  }

  function Joined(chunks: seq<seq<Byte>>): seq<Byte>
  {
    if chunks == [] then [] else Joined(chunks[..|chunks| - 1]) + chunks[|chunks| - 1]
  }
}
