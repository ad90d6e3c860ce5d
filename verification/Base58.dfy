/** Content ids: a byte string as a base 58 number, computed digit by digit in a buffer
    of fixed size, with one leading 1 for every leading zero byte. */
module Base58 {
  import opened Arithmetic
  import opened Lists

  type Byte = n: nat | n < 256
  type Digit = n: nat | n < 58

  /** The alphabet: 1 to 9, A to Z without I and O, a to z without l. */
  function Char58(d: Digit): (c: char)
    ensures Digit58(c) == d
  {
    if d < 9 then '1' + d as char
    else if d < 17 then 'A' + (d - 9) as char
    else if d < 22 then 'J' + (d - 17) as char
    else if d < 33 then 'P' + (d - 22) as char
    else if d < 44 then 'a' + (d - 33) as char
    else 'm' + (d - 44) as char
  }

  function Digit58(c: char): int
  {
    if '1' <= c <= '9' then c as int - '1' as int
    else if 'A' <= c <= 'H' then c as int - 'A' as int + 9
    else if 'J' <= c <= 'N' then c as int - 'J' as int + 17
    else if 'P' <= c <= 'Z' then c as int - 'P' as int + 22
    else if 'a' <= c <= 'k' then c as int - 'a' as int + 33
    else if 'm' <= c <= 'z' then c as int - 'm' as int + 44
    else -1
  }

  /** The number digits denote, most significant first. */
  function Number(base: nat, digits: seq<nat>): nat
  {
    if digits == [] then 0 else Number(base, digits[..|digits| - 1]) * base + digits[|digits| - 1]
  }

  lemma {:induction false} NumberConcat(base: nat, x: seq<nat>, y: seq<nat>)
    ensures Number(base, x + y) == Number(base, x) * Power(base, |y|) + Number(base, y)
  {
    if y == [] {
      assert x + y == x;
    } else {
      var n := |y| - 1;
      assert (x + y)[..|x| + n] == x + y[..n];
      NumberConcat(base, x, y[..n]);
      var p, q, r := Number(base, x), Power(base, n), Number(base, y[..n]);
      assert (p * q + r) * base + y[n] == p * (base * q) + (r * base + y[n]) by { Rearrange(p, q, r, base); }
    }
  }

  lemma {:induction false} Rearrange(p: nat, q: nat, r: nat, b: nat)
    ensures (p * q + r) * b == p * (b * q) + r * b
  {
    assert (p * q + r) * b == p * q * b + r * b;
    assert p * q * b == p * (b * q);
  }

  lemma {:induction false} NumberBelow(base: nat, digits: seq<nat>)
    requires base > 0 && forall i {:trigger digits[i]} :: 0 <= i < |digits| ==> digits[i] < base
    ensures Number(base, digits) < Power(base, |digits|)
  {
    if digits != [] {
      var n := |digits| - 1;
      NumberBelow(base, digits[..n]);
      Scaled(Number(base, digits[..n]), Power(base, n), base, digits[n]);
    }
  }

  lemma {:induction false} Scaled(a: nat, p: nat, base: nat, d: nat)
    requires a < p && d < base
    ensures a * base + d < base * p
  {
    MulMonotone(a + 1, p, base);
    assert (a + 1) * base == a * base + base && base * p == p * base;
  }

  lemma {:induction false} NumberOfZeros(base: nat, digits: seq<nat>)
    requires forall i {:trigger digits[i]} :: 0 <= i < |digits| ==> digits[i] == 0
    ensures Number(base, digits) == 0
  {
    if digits != [] { NumberOfZeros(base, digits[..|digits| - 1]); }
  }

  /** Leading zeros do not change the number. */
  lemma {:induction false} DropZeros(base: nat, digits: seq<nat>, k: nat)
    requires k <= |digits| && forall i {:trigger digits[i]} :: 0 <= i < k ==> digits[i] == 0
    ensures Number(base, digits) == Number(base, digits[k..])
  {
    assert digits == digits[..k] + digits[k..];
    NumberConcat(base, digits[..k], digits[k..]);
    NumberOfZeros(base, digits[..k]);
  }

  lemma {:induction false} QuotientUnique(a: nat, b: nat, x: nat, y: nat, d: nat)
    requires a * d + x == b * d + y && x < d && y < d
    ensures a == b && x == y
  {
    if a < b { MulMonotone(a + 1, b, d); }
    if b < a { MulMonotone(b + 1, a, d); }
  }

  ghost predicate Normal(base: nat, digits: seq<nat>)
  {
    && (forall i {:trigger digits[i]} :: 0 <= i < |digits| ==> digits[i] < base)
    && (digits != [] ==> digits[0] != 0)
  }

  lemma {:induction false} NormalPositive(base: nat, digits: seq<nat>)
    requires base > 0 && digits != [] && digits[0] != 0
    ensures Number(base, digits) > 0
  {
    if |digits| > 1 {
      NormalPositive(base, digits[..|digits| - 1]);
      MulMonotone(1, Number(base, digits[..|digits| - 1]), base);
    } else {
      assert digits[..0] == [];
    }
  }

  /** A number has only one notation without leading zeros. */
  lemma {:induction false} NotationUnique(base: nat, x: seq<nat>, y: seq<nat>)
    requires base > 0 && Normal(base, x) && Normal(base, y) && Number(base, x) == Number(base, y)
    ensures x == y
  {
    if x == [] || y == [] {
      if x != [] { NormalPositive(base, x); }
      if y != [] { NormalPositive(base, y); }
    } else {
      var m, n := |x| - 1, |y| - 1;
      QuotientUnique(Number(base, x[..m]), Number(base, y[..n]), x[m], y[n], base);
      NotationUnique(base, x[..m], y[..n]);
      assert x == x[..m] + [x[m]] && y == y[..n] + [y[n]];
    }
  }

  // ----- the conversion

  datatype Result = Text(s: string) | NonZeroCarry

  function Leaders(source: seq<Byte>): (z: nat)
    ensures z <= |source|
    ensures forall i {:trigger source[i]} :: 0 <= i < z ==> source[i] == 0
    ensures z < |source| ==> source[z] != 0
  {
    if source == [] || source[0] != 0 then 0
    else
      var r := Leaders(source[1..]);
      assert forall i {:trigger source[i]} :: 1 <= i < |source| ==> source[i] == source[1..][i - 1];
      1 + r
  }

  /** The buffer denotes n, and is zero outside its last len cells. */
  ghost predicate Holds(b58: seq<nat>, len: nat, n: nat)
  {
    && len <= |b58|
    && (forall i {:trigger b58[i]} :: 0 <= i < |b58| ==> b58[i] < 58)
    && (forall i {:trigger b58[i]} :: 0 <= i < |b58| - len ==> b58[i] == 0)
    && Number(58, b58) == n
  }

  lemma {:induction false} TailStep(b: seq<nat>, it: nat)
    requires it < |b|
    ensures Number(58, b[it..]) == b[it] * Power(58, |b| - it - 1) + Number(58, b[it + 1..])
  {
    assert b[it..] == [b[it]] + b[it + 1..];
    NumberConcat(58, [b[it]], b[it + 1..]);
    assert [b[it]][..0] == [];
    assert Number(58, [b[it]]) == b[it];
  }

  /** With the last i cells updated, what is still to be carried belongs in front of them. */
  ghost predicate Carrying(b: seq<nat>, b0: seq<nat>, i: nat, carry: nat, byte: nat)
  {
    && |b| == |b0| && i <= |b|
    && (forall j {:trigger b[j]} :: 0 <= j < |b| ==> b[j] < 58)
    && (forall j {:trigger b[j]} :: 0 <= j < |b| - i ==> b[j] == b0[j])
    && Number(58, b[|b| - i..]) + carry * Power(58, i) == 256 * Number(58, b0[|b| - i..]) + byte
  }

  lemma {:induction false} CarryStep(b: seq<nat>, b0: seq<nat>, i: nat, carry: nat, byte: nat, b': seq<nat>)
    requires Carrying(b, b0, i, carry, byte) && i < |b|
    requires var it := |b| - i - 1; b' == b[it := (carry + 256 * b[it]) % 58]
    ensures Carrying(b', b0, i + 1, (carry + 256 * b[|b| - i - 1]) / 58, byte)
  {
    var it := |b| - i - 1;
    var c := carry + 256 * b[it];
    var p := Power(58, i);
    TailStep(b', it);
    TailStep(b0, it);
    assert b'[it + 1..] == b[it + 1..] && b[it] == b0[it];
    assert c == c / 58 * 58 + c % 58;
    Shuffle(c / 58, c % 58, carry, b0[it], p);
  }

  lemma {:induction false} Shuffle(q: nat, r: nat, carry: nat, d: nat, p: nat)
    requires q * 58 + r == carry + 256 * d
    ensures r * p + q * (58 * p) == carry * p + 256 * (d * p)
  {
    assert r * p + q * (58 * p) == (q * 58 + r) * p;
    assert (carry + 256 * d) * p == carry * p + 256 * (d * p);
  }

  /** The buffer times 256 plus one more byte, or a carry that does not fit. */
  method AddByte(b58: array<nat>, length: nat, byte: Byte, ghost n: nat) returns (length': nat, carry: nat)
    requires Holds(b58[..], length, n)
    modifies b58
    ensures carry == 0 ==> Holds(b58[..], length', 256 * n + byte)
    ensures carry != 0 ==> 256 * n + byte >= Power(58, b58.Length)
  {
    var size := b58.Length;
    carry := byte;
    var i := 0;
    var it1 := size - 1;
    ghost var b0 := b58[..];
    assert b0[size..] == [] && Power(58, 0) == 1;
    while (carry != 0 || i < length) && it1 != -1
      invariant it1 == size - 1 - i && i <= size
      invariant Carrying(b58[..], b0, i, carry, byte)
      decreases it1
    {
      ghost var b, c := b58[..], carry;
      carry := carry + 256 * b58[it1];
      b58[it1] := carry % 58;
      carry := carry / 58;
      assert b58[..] == b[it1 := (c + 256 * b[it1]) % 58];
      CarryStep(b, b0, i, c, byte, b58[..]);
      it1 := it1 - 1;
      i := i + 1;
    }
    length' := i;
    AddedUp(b58[..], b0, i, length, carry, byte, n);
  }

  lemma {:induction false} AddedUp(b: seq<nat>, b0: seq<nat>, i: nat, length: nat, carry: nat, byte: nat, n: nat)
    requires Carrying(b, b0, i, carry, byte) && Holds(b0, length, n) && (i == |b| || (carry == 0 && i >= length))
    ensures carry == 0 ==> Holds(b, i, 256 * n + byte)
    ensures carry != 0 ==> 256 * n + byte >= Power(58, |b|)
  {
    var k := |b| - i;
    DropZeros(58, b0, k);
    DropZeros(58, b, k);
    if carry != 0 { MulMonotone(1, carry, Power(58, i)); }
  }

  /** The digits of n, most significant first, none for zero. */
  function Digits(n: nat): (d: seq<Digit>)
  {
    if n == 0 then [] else Digits(n / 58) + [n % 58]
  }

  lemma {:induction false} DigitsNormal(n: nat)
    ensures Normal(58, Digits(n)) && Number(58, Digits(n)) == n
  {
    if n > 0 {
      DigitsNormal(n / 58);
      var d := Digits(n);
      assert d[..|d| - 1] == Digits(n / 58);
    }
  }

  function Spell(d: seq<Digit>): (s: string)
    ensures |s| == |d| && forall i {:trigger s[i]} :: 0 <= i < |s| ==> s[i] == Char58(d[i])
  {
    if d == [] then "" else [Char58(d[0])] + Spell(d[1..])
  }

  /** The content id of a byte string. */
  function Cid(source: seq<Byte>): string
  {
    Repeat('1', Leaders(source)) + Spell(Digits(Number(256, source)))
  }

  const ALPHABET := "123456789" + "ABCDEFGH" + "JKLMN" + "PQRSTUVWXYZ" + "abcdefghijk" + "mnopqrstuvwxyz"

  /** The characters of the text are in the alphabet, and d says where. */
  ghost predicate Spells(s: string, d: seq<Digit>)
  {
    |d| == |s| && forall k {:trigger s[k]} :: 0 <= k < |s| ==> s[k] == ALPHABET[d[k]]
  }

  /** The text is the number of the bytes in base 58, most significant digit first, with
      exactly one leading 1 for every leading zero byte. */
  ghost predicate ReadsAs(s: string, source: seq<Byte>)
  {
    && Ones(s, Leaders(source))
    && exists d: seq<Digit> {:trigger Spells(s, d)} :: Spells(s, d) && Number(58, d) == Number(256, source)
  }

  lemma {:induction false} Alphabet(d: Digit)
    ensures Char58(d) == ALPHABET[d]
  {
  }

  lemma {:induction false} AlphabetSize()
    ensures |ALPHABET| == 58
  {
  }

  /** A content id reads as the bytes it was made of. */
  lemma {:induction false} CidReads(source: seq<Byte>)
    ensures ReadsAs(Cid(source), source)
  {
    var z, n := Leaders(source), Number(256, source);
    var s, zeros: seq<Digit> := Cid(source), Repeat(0, z);
    var d := zeros + Digits(n);
    hide Char58, Digits, Number, ALPHABET, Ones, Leaders;
    SpellsOut(s, d, z, Digits(n));
    LeadersCount(source);
    DropZeros(58, d, z);
    assert d[z..] == Digits(n);
    DigitsNormal(n);
  }

  lemma {:induction false} SpellsOut(s: string, d: seq<Digit>, z: nat, e: seq<Digit>)
    requires s == Repeat('1', z) + Spell(e) && d == Repeat(0, z) + e
    ensures Spells(s, d)
  {
    hide Char58, ALPHABET;
    AlphabetSize();
    OneIsZero();
    forall k | 0 <= k < |s| ensures s[k] == ALPHABET[d[k]] {
      Alphabet(d[k]);
      assert k < z ==> s[k] == '1' && d[k] == 0;
      assert k >= z ==> s[k] == Spell(e)[k - z] && d[k] == e[k - z];
    }
  }

  lemma {:induction false} OneIsZero()
    ensures Char58(0) == '1'
  {
  }

  /** No other text does. */
  lemma {:induction false} CidOnly(s: string, source: seq<Byte>)
    requires ReadsAs(s, source)
    ensures s == Cid(source)
  {
    hide *;
    var z, n := Leaders(source), Number(256, source);
    var d := DigitsRead(s, source);
    OnesAreZeros(s, d, z);
    DropZeros(58, d, z);
    DigitsNormal(n);
    assert Normal(58, d[z..]) by { IsNormal(d, z); }
    NotationUnique(58, d[z..], Digits(n));
    SplitText(s, d, source, z);
  }

  lemma {:induction false} DigitsRead(s: string, source: seq<Byte>) returns (d: seq<Digit>)
    requires ReadsAs(s, source)
    ensures Ones(s, Leaders(source)) && Spells(s, d) && Number(58, d) == Number(256, source)
  {
    hide Spells, Ones, Number, Leaders;
    d :| Spells(s, d) && Number(58, d) == Number(256, source);
  }

  lemma {:induction false} IsNormal(d: seq<Digit>, z: nat)
    requires z <= |d| && (z < |d| ==> d[z] != 0)
    ensures Normal(58, d[z..])
  {
  }

  lemma {:induction false} SplitText(s: string, d: seq<Digit>, source: seq<Byte>, z: nat)
    requires z == Leaders(source) && Ones(s, z) && Spells(s, d) && d[z..] == Digits(Number(256, source))
    ensures s == Cid(source)
  {
    hide Char58, Digits, Number, ALPHABET, Leaders;
    SpelledOut(s, d, z);
    assert s[..z] == Repeat('1', z);
    assert s == s[..z] + s[z..];
  }

  lemma {:induction false} SpelledOut(s: string, d: seq<Digit>, z: nat)
    requires Spells(s, d) && z <= |s|
    ensures s[z..] == Spell(d[z..])
  {
    hide Char58, ALPHABET;
    forall k | 0 <= k < |s| - z ensures s[z..][k] == Spell(d[z..])[k] {
      Alphabet(d[z + k]);
      assert s[z + k] == Char58(d[z + k]);
    }
  }

  lemma {:induction false} OnesAreZeros(s: string, d: seq<Digit>, z: nat)
    requires Spells(s, d) && Ones(s, z)
    ensures z <= |d| && forall k {:trigger d[k]} :: 0 <= k < z ==> d[k] == 0
    ensures z < |d| ==> d[z] != 0
  {
    hide ALPHABET;
    forall k | 0 <= k < z ensures d[k] == 0 {
      Alphabet(d[k]);
      assert s[k] == '1' && Digit58(Char58(d[k])) == d[k];
    }
    if z < |d| {
      Alphabet(d[z]);
      assert s[z] == Char58(d[z]) != '1';
    }
  }

  /** Puts the number of source, from pbegin on, into the buffer. */
  method Convert(source: seq<Byte>, start: nat, b58: array<nat>) returns (ok: bool, length: nat)
    requires start <= |source| && Number(256, source[..start]) == 0
    requires forall i {:trigger b58[i]} :: 0 <= i < b58.Length ==> b58[i] == 0
    modifies b58
    ensures ok <==> Number(256, source) < Power(58, b58.Length)
    ensures ok ==> Holds(b58[..], length, Number(256, source))
  {
    var pbegin, pend := start, |source|;
    length := 0;
    NumberOfZeros(58, b58[..]);
    while pbegin != pend
      invariant start <= pbegin <= pend
      invariant Holds(b58[..], length, Number(256, source[..pbegin]))
      decreases pend - pbegin
    {
      assert source[..pbegin + 1][..pbegin] == source[..pbegin];
      var carry;
      length, carry := AddByte(b58, length, source[pbegin], Number(256, source[..pbegin]));
      if carry != 0 {
        PrefixBelow(source, pbegin + 1);
        return false, length;
      }
      pbegin := pbegin + 1;
    }
    assert source[..pend] == source;
    NumberBelow(58, b58[..]);
    ok := true;
  }

  /** Leaders and the digits of the buffer as text. */
  method Render(source: seq<Byte>, zeroes: nat, b58: array<nat>, length: nat) returns (str: string)
    requires zeroes == Leaders(source) && Holds(b58[..], length, Number(256, source))
    ensures str == Cid(source) && ReadsAs(str, source)
  {
    var size := b58.Length;
    var it2 := size - length;
    while it2 != size && b58[it2] == 0
      invariant it2 <= size
      invariant forall i {:trigger b58[i]} :: 0 <= i < it2 ==> b58[i] == 0
      decreases size - it2
    {
      it2 := it2 + 1;
    }
    ghost var n := Number(256, source);
    DropZeros(58, b58[..], it2);
    DigitsNormal(n);
    NotationUnique(58, b58[..][it2..], Digits(n));
    CidReads(source);
    str := SpellOut(b58, it2, Repeat('1', zeroes), Digits(n));
  }

  method SpellOut(b58: array<nat>, start: nat, leaders: string, ghost d: seq<Digit>) returns (str: string)
    requires start <= b58.Length && |d| == b58.Length - start
    requires forall i {:trigger b58[i]} :: start <= i < b58.Length ==> b58[i] == d[i - start]
    ensures str == leaders + Spell(d)
  {
    hide Char58;
    str := leaders;
    var it2 := start;
    assert d[0..] == d;
    while it2 < b58.Length
      invariant start <= it2 <= b58.Length
      invariant str + Spell(d[it2 - start..]) == leaders + Spell(d)
    {
      ghost var rest := d[it2 - start..];
      assert rest[1..] == d[it2 + 1 - start..] && rest[0] == b58[it2];
      assert str + ([Char58(b58[it2])] + Spell(rest[1..])) == (str + [Char58(b58[it2])]) + Spell(rest[1..]);
      str := str + [Char58(b58[it2])];
      it2 := it2 + 1;
    }
  }

  /** size is what the buffer is given for the bytes after the leading zeros. The conversion
      fails exactly when the number has more digits than that. */
  method ToCID(source: seq<Byte>, size: nat) returns (r: Result)
    ensures r.Text? <==> source == [] || Number(256, source) < Power(58, size)
    ensures r.Text? ==> r.s == Cid(source) && ReadsAs(r.s, source)
  {
    CidReads(source);
    if |source| == 0 { return Text(""); }
    var zeroes := 0;
    while zeroes != |source| && source[zeroes] == 0
      invariant zeroes <= |source|
      invariant forall i {:trigger source[i]} :: 0 <= i < zeroes ==> source[i] == 0
    {
      zeroes := zeroes + 1;
    }
    NumberOfZeros(256, source[..zeroes]);
    var b58 := new nat[size](_ => 0);
    var ok, length := Convert(source, zeroes, b58);
    if !ok { return NonZeroCarry; }
    var str := Render(source, zeroes, b58, length);
    r := Text(str);
  }

  lemma {:induction false} PrefixBelow(source: seq<Byte>, k: nat)
    requires k <= |source|
    ensures Number(256, source[..k]) <= Number(256, source)
  {
    assert source == source[..k] + source[k..];
    NumberConcat(256, source[..k], source[k..]);
    PowerPositive(256, |source| - k);
    Grows(Number(256, source[..k]), Power(256, |source| - k));
  }

  lemma {:induction false} Grows(a: nat, p: nat)
    requires p > 0
    ensures a <= a * p
  {
    MulMonotone(1, p, a);
    assert a * p == p * a;
  }

  /** A buffer with 58^size > 256^n is large enough for any n bytes after the leading zeros. */
  lemma {:induction false} NoCarryLeft(source: seq<Byte>, size: nat)
    requires Power(58, size) > Power(256, |source| - Leaders(source))
    ensures Number(256, source) < Power(58, size)
  {
    DropZeros(256, source, Leaders(source));
    NumberBelow(256, source[Leaders(source)..]);
  }

  lemma {:induction false} SpellInjective(x: seq<Digit>, y: seq<Digit>)
    requires Spell(x) == Spell(y)
    ensures x == y
  {
    assert |x| == |y|;
    forall i | 0 <= i < |x| ensures x[i] == y[i] {
      assert Spell(x)[i] == Spell(y)[i];
      assert Digit58(Char58(x[i])) == Digit58(Char58(y[i]));
    }
  }

  /** Different byte strings have different content ids. */
  lemma {:induction false} CidInjective(x: seq<Byte>, y: seq<Byte>)
    requires Cid(x) == Cid(y)
    ensures x == y
  {
    var z, m, n := Leaders(x), Number(256, x), Number(256, y);
    LeadersCount(x);
    LeadersCount(y);
    OnesUnique(Cid(x), Leaders(x), Leaders(y));
    assert Spell(Digits(m)) == Cid(x)[z..] && Spell(Digits(n)) == Cid(y)[z..];
    SpellInjective(Digits(m), Digits(n));
    hide *;
    DigitsNormal(m);
    DigitsNormal(n);
    assert m == n;
    SameNumber(x, y, z);
  }

  /** As many leading zeros, and the same number: the same bytes. */
  lemma {:induction false} SameNumber(x: seq<Byte>, y: seq<Byte>, z: nat)
    requires Leaders(x) == Leaders(y) == z && Number(256, x) == Number(256, y)
    ensures x == y
  {
    hide Number, Leaders;
    DropZeros(256, x, z);
    DropZeros(256, y, z);
    NotationUnique(256, x[z..], y[z..]);
    assert x[..z] == y[..z];
    assert x == x[..z] + x[z..] && y == y[..z] + y[z..];
  }

  /** s begins with exactly a ones. */
  ghost predicate Ones(s: string, a: nat)
  {
    && a <= |s| && (a < |s| ==> s[a] != '1')
    && forall i {:trigger s[i]} :: 0 <= i < a ==> s[i] == '1'
  }

  lemma {:induction false} LeadersCount(y: seq<Byte>)
    ensures Ones(Cid(y), Leaders(y))
  {
    var d := Digits(Number(256, y));
    DigitsNormal(Number(256, y));
    assert |d| > 0 ==> Spell(d)[0] == Char58(d[0]) && Digit58(Char58(d[0])) != Digit58('1');
  }

  lemma {:induction false} OnesUnique(s: string, a: nat, b: nat)
    requires Ones(s, a) && Ones(s, b)
    ensures a == b
  {
  }

  lemma {:induction false} OutgrowsTogether(m: nat, n: nat, j: nat, k: nat)
    requires Power(58, m) > Power(256, n) && Power(58, j) > Power(256, k)
    ensures Power(58, m + j) > Power(256, n + k)
  {
    hide *;
    PowerAdd(58, m, j);
    PowerAdd(256, n, k);
    ProductGrows(Power(58, m), Power(256, n), Power(58, j), Power(256, k));
  }

  lemma {:induction false} ProductGrows(p: nat, q: nat, r: nat, s: nat)
    requires p > q && r > s
    ensures p * r > q * s
  {
    calc {
      q * s;
    <= { MulMonotone(q, p, s); }
      p * s;
    <
      p * s + p;
      (s + 1) * p;
    <= { MulMonotone(s + 1, r, p); }
      r * p;
    }
  }

  lemma {:induction false} SmallPowers()
    ensures Power(58, 11) > Power(256, 8) && Power(58, 3) > Power(256, 2)
  {
  }

  /** The 34 bytes of a SHA-256 multihash fit the 47 digits they are given. */
  lemma {:induction false} MultihashFits(source: seq<Byte>)
    requires |source| == 34 && source[0] == 18
    ensures Number(256, source) < Power(58, 47)
  {
    hide *;
    SmallPowers();
    OutgrowsTogether(11, 8, 11, 8);
    OutgrowsTogether(22, 16, 11, 8);
    OutgrowsTogether(33, 24, 11, 8);
    OutgrowsTogether(44, 32, 3, 2);
    NoCarryLeft(source, 47);
  }
}
