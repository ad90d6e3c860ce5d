/** Base64url without padding: bytes to text and back. */
module TextCode {
  import opened Arithmetic
  import opened DocIds
  import opened Lists

  type Byte = n: nat | n < 256

  // ----- encoding

  /** Three bytes as one 24-bit number; missing ones count as zero. */
  function Combined(a: Byte, b: Byte, c: Byte): nat
  {
    a * 65536 + b * 256 + c
  }

  /** The four base 64 digits of a 24-bit number. */
  function Four(n: nat): (s: string)
    ensures |s| == 4
  {
    [Char(n / 262144 % 64), Char(n / 4096 % 64), Char(n / 64 % 64), Char(n % 64)]
  }

  /** The text of up to three bytes: one character more than there are bytes. */
  function EncodeGroup(g: seq<Byte>): (s: string)
    requires 1 <= |g| <= 3
    ensures |s| == |g| + 1
  {
    Four(Combined(g[0], if |g| > 1 then g[1] else 0, if |g| > 2 then g[2] else 0))[..|g| + 1]
  }

  function Encoded(bytes: seq<Byte>): string
  {
    if bytes == [] then "" else if |bytes| <= 3 then EncodeGroup(bytes)
        else EncodeGroup(bytes[..3]) + Encoded(bytes[3..])
  }

  /** The part of bytes from i on that is one group, or less at the end. */
  function GroupAt<T>(s: seq<T>, i: nat, w: nat): seq<T>
    requires i <= |s|
  {
    s[i..if i + w <= |s| then i + w else |s|]
  }

  /** The text still to come when i bytes are done. */
  function Rest(bytes: seq<Byte>, i: nat): string
  {
    if i <= |bytes| then Encoded(bytes[i..]) else ""
  }

  lemma {:induction false} EncodeStep(bytes: seq<Byte>, i: nat)
    requires i < |bytes|
    ensures Rest(bytes, i) == EncodeGroup(GroupAt(bytes, i, 3)) + Rest(bytes, i + 3)
  {
    var rest := bytes[i..];
    if |rest| <= 3 {
      assert rest == GroupAt(bytes, i, 3);
      if |rest| == 3 { assert bytes[i + 3..] == []; }
    } else {
      assert rest[..3] == GroupAt(bytes, i, 3) && rest[3..] == bytes[i + 3..];
    }
  }

  /** The group of bytes from i on. */
  method EncodeOne(bytes: seq<Byte>, i: nat) returns (text: string)
    requires i < |bytes|
    ensures text == EncodeGroup(GroupAt(bytes, i, 3))
  {
    var a := bytes[i];
    var b := if i + 1 < |bytes| then bytes[i + 1] else 0;
    var c := if i + 2 < |bytes| then bytes[i + 2] else 0;
    var combined := Combined(a, b, c);
    text := [Char(combined / 262144 % 64)];
    text := text + [Char(combined / 4096 % 64)];
    if i + 1 < |bytes| { text := text + [Char(combined / 64 % 64)]; }
    if i + 2 < |bytes| { text := text + [Char(combined % 64)]; }
  }

  method BytesToBase64url(bytes: seq<Byte>) returns (result: string)
    ensures result == Encoded(bytes)
  {
    hide EncodeGroup, GroupAt;
    result := "";
    var i := 0;
    assert bytes[0..] == bytes && result + Rest(bytes, 0) == Encoded(bytes);
    while i < |bytes|
      invariant result + Rest(bytes, i) == Encoded(bytes)
      decreases |bytes| - i
    {
      EncodeStep(bytes, i);
      var text := EncodeOne(bytes, i);
      assert result + (text + Rest(bytes, i + 3)) == (result + text) + Rest(bytes, i + 3);
      result := result + text;
      i := i + 3;
    }
    assert Rest(bytes, i) == "";
  }

  // ----- decoding

  /** The value of a character of either base 64 alphabet, -1 for any other. */
  function Sextet(c: char): int
  {
    if c == '+' then 62 else if c == '/' then 63 else DigitOf(c)
  }

  /** bits shifted left by six with v put below, as 32-bit operators compute it. */
  function Push(bits: int, v: int): int
  {
    if v < 0 then -1 else bits * 64 + v
  }

  /** The bits of the first j characters of a group, and how many; padding counts for none. */
  function Bits(g: string, j: nat): int
    requires j <= |g|
  {
    if j == 0 then 0 else if g[j - 1] == '=' then Bits(g, j - 1) else Push(Bits(g, j - 1), Sextet(g[j - 1]))
  }

  function Count(g: string, j: nat): nat
    requires j <= |g|
  {
    if j == 0 then 0 else Count(g, j - 1) + if g[j - 1] == '=' then 0 else 6
  }

  function Pow2(n: nat): (p: nat)
    ensures p > 0
  {
    if n == 0 then 1 else 2 * Pow2(n - 1)
  }

  /** Whole bytes off the top of v bits. */
  function Chop(bits: int, v: nat): seq<Byte>
  {
    if v < 8 then [] else [bits / Pow2(v - 8) % 256] + Chop(bits, v - 8)
  }

  function DecodeGroup(g: string): seq<Byte>
  {
    Chop(Bits(g, |g|), Count(g, |g|))
  }

  function Groups(s: string): seq<Byte>
  {
    if s == [] then [] else if |s| <= 4 then DecodeGroup(s) else DecodeGroup(s[..4]) + Groups(s[4..])
  }

  /** The bytes still to come when i characters are done. */
  function Left(s: string, i: nat): seq<Byte>
  {
    if i <= |s| then Groups(s[i..]) else []
  }

  lemma {:induction false} DecodeStep(s: string, i: nat)
    requires i < |s|
    ensures Left(s, i) == DecodeGroup(GroupAt(s, i, 4)) + Left(s, i + 4)
  {
    var rest := s[i..];
    if |rest| <= 4 {
      assert rest == GroupAt(s, i, 4);
      if |rest| == 4 { assert s[i + 4..] == []; }
    } else {
      assert rest[..4] == GroupAt(s, i, 4) && rest[4..] == s[i + 4..];
    }
  }

  function Padding(n: nat): string
  {
    if n % 4 == 0 then "" else if n % 4 == 1 then "===" else if n % 4 == 2 then "==" else "="
  }

  function Decoded(s: string): seq<Byte>
  {
    Groups(s + Padding(|s|))
  }

  /** One group of characters. */
  method DecodeOne(encoded: string) returns (bytes: seq<Byte>)
    ensures bytes == DecodeGroup(encoded)
  {
    hide Push, Sextet, Pow2;
    var bits, validBits := 0, 0;
    for j := 0 to |encoded|
      invariant bits == Bits(encoded, j) && validBits == Count(encoded, j)
    {
      if encoded[j] != '=' {
        bits := Push(bits, Sextet(encoded[j]));
        validBits := validBits + 6;
      }
    }
    bytes := [];
    while validBits >= 8
      invariant validBits >= 0 && bytes + Chop(bits, validBits) == DecodeGroup(encoded)
    {
      validBits := validBits - 8;
      bytes := bytes + [bits / Pow2(validBits) % 256];
    }
  }

  method Base64urlToBytes(str: string) returns (result: seq<Byte>)
    ensures result == Decoded(str)
  {
    hide DecodeGroup, Padding;
    var base64 := str + Padding(|str|);
    result := [];
    var i := 0;
    assert base64[0..] == base64 && result + Left(base64, 0) == Groups(base64);
    while i < |base64|
      invariant result + Left(base64, i) == Groups(base64)
      decreases |base64| - i
    {
      DecodeStep(base64, i);
      var bytes := DecodeOne(GroupAt(base64, i, 4));
      assert result + (bytes + Left(base64, i + 4)) == (result + bytes) + Left(base64, i + 4);
      result := result + bytes;
      i := i + 4;
    }
    assert Left(base64, i) == [];
  }

  // ----- the digits of a group

  function Digit1(a: Byte): nat { a / 4 }

  function Digit2(a: Byte, b: Byte): nat { a % 4 * 16 + b / 16 }

  function Digit3(b: Byte, c: Byte): nat { b % 16 * 4 + c / 64 }

  function Digit4(c: Byte): nat { c % 64 }

  lemma {:induction false} Quotient(n: int, d: int, q: int, r: int)
    requires d > 0 && n == q * d + r && 0 <= r < d
    ensures n / d == q && n % d == r
  {
    var p := n / d;
    if q < p { MulMonotone(q + 1, p, d); }
    if p < q { MulMonotone(p + 1, q, d); }
  }

  lemma {:induction false} DigitSum(a: Byte, b: Byte, c: Byte)
    ensures Digit1(a) < 64 && Digit2(a, b) < 64 && Digit3(b, c) < 64 && Digit4(c) < 64
    ensures Combined(a, b, c) == Digit1(a) * 262144 + Digit2(a, b) * 4096 + Digit3(b, c) * 64 + Digit4(c)
  {
    SplitBy(a, 4);
    SplitBy(b, 16);
    SplitBy(c, 64);
  }

  lemma {:induction false} SplitBy(n: nat, d: nat)
    requires d > 0
    ensures n == d * (n / d) + n % d && n % d < d
  {
  }

  /** One digit of a number, given what is above and below it. */
  lemma {:induction false} DigitAt(n: nat, d: nat, hi: nat, x: nat, r: nat)
    requires d > 0 && n == (hi * 64 + x) * d + r && r < d && x < 64
    ensures n / d % 64 == x
  {
    Quotient(n, d, hi * 64 + x, r);
    Quotient(hi * 64 + x, 64, hi, x);
  }

  lemma {:induction false} FourDigits(a: Byte, b: Byte, c: Byte)
    ensures Digit1(a) < 64 && Digit2(a, b) < 64 && Digit3(b, c) < 64 && Digit4(c) < 64
    ensures Four(Combined(a, b, c)) == [Char(Digit1(a)), Char(Digit2(a, b)), Char(Digit3(b, c)), Char(Digit4(c))]
    ensures Combined(a, b, c) == Digit1(a) * 262144 + Digit2(a, b) * 4096 + Digit3(b, c) * 64 + Digit4(c)
  {
    hide Combined, Digit1, Digit2, Digit3, Digit4, Char;
    DigitSum(a, b, c);
    var n, w, x, y, z := Combined(a, b, c), Digit1(a), Digit2(a, b), Digit3(b, c), Digit4(c);
    DigitAt(n, 262144, 0, w, x * 4096 + y * 64 + z);
    DigitAt(n, 4096, w, x, y * 64 + z);
    DigitAt(n, 64, w * 64 + x, y, z);
    Quotient(n, 64, w * 4096 + x * 64 + y, z);
  }

  // ----- back and forth

  lemma {:induction false} PushDigit(g: string, j: nat, d: nat)
    requires j < |g| && d < 64 && g[j] == Char(d)
    ensures Bits(g, j + 1) == Bits(g, j) * 64 + d && Count(g, j + 1) == Count(g, j) + 6
  {
  }

  lemma {:induction false} Powers()
    ensures Pow2(0) == 1 && Pow2(2) == 4 && Pow2(4) == 16 && Pow2(8) == 256 && Pow2(10) == 1024 && Pow2(16) == 65536
  {
    assert Pow2(5) == 32 && Pow2(12) == 4096 && Pow2(14) == 16384;
  }

  lemma {:induction false} ChopOne(bits: int, v: nat, q: int, r: int, b: Byte, k: int)
    requires v >= 8 && bits == q * Pow2(v - 8) + r && 0 <= r < Pow2(v - 8) && q == k * 256 + b
    ensures Chop(bits, v) == [b] + Chop(bits, v - 8)
  {
    Quotient(bits, Pow2(v - 8), q, r);
    Quotient(q, 256, k, b);
  }

  lemma {:induction false} FullBits(g: string, w: nat, x: nat, y: nat, z: nat)
    requires w < 64 && x < 64 && y < 64 && z < 64 && g == [Char(w), Char(x), Char(y), Char(z)]
    ensures Bits(g, 4) == w * 262144 + x * 4096 + y * 64 + z && Count(g, 4) == 24
  {
    assert Bits(g, 0) == 0 && Count(g, 0) == 0;
    hide *;
    PushDigit(g, 0, w);
    PushDigit(g, 1, x);
    PushDigit(g, 2, y);
    PushDigit(g, 3, z);
  }

  lemma {:induction false} FullChop(a: Byte, b: Byte, c: Byte, n: nat)
    requires n == a * 65536 + b * 256 + c
    ensures Chop(n, 24) == [a, b, c]
  {
    assert Chop(n, 0) == [];
    hide *;
    Powers();
    ChopOne(n, 24, a, b * 256 + c, a, 0);
    ChopOne(n, 16, a * 256 + b, c, b, a);
    ChopOne(n, 8, n, 0, c, a * 256 + b);
  }

  lemma {:induction false} FullGroup(a: Byte, b: Byte, c: Byte)
    ensures DecodeGroup(EncodeGroup([a, b, c])) == [a, b, c]
  {
    var g, n := EncodeGroup([a, b, c]), Combined(a, b, c);
    assert g == Four(n) && DecodeGroup(g) == Chop(Bits(g, 4), Count(g, 4));
    assert n == a * 65536 + b * 256 + c;
    hide *;
    FourDigits(a, b, c);
    FullBits(g, Digit1(a), Digit2(a, b), Digit3(b, c), Digit4(c));
    FullChop(a, b, c, n);
  }

  lemma {:induction false} PairGroup(a: Byte, b: Byte)
    ensures DecodeGroup(EncodeGroup([a, b]) + "=") == [a, b]
  {
    var g, n := EncodeGroup([a, b]) + "=", a * 1024 + b * 4;
    FourDigits(a, b, 0);
    PushDigit(g, 0, Digit1(a));
    PushDigit(g, 1, Digit2(a, b));
    PushDigit(g, 2, Digit3(b, 0));
    assert Bits(g, 4) == n && Count(g, 4) == 18;
    hide Bits, Count, Digit1, Digit2, Digit3, Four, Char;
    Powers();
    ChopOne(n, 18, a, b * 4, a, 0);
    ChopOne(n, 10, a * 256 + b, 0, b, a);
    assert Chop(n, 2) == [];
  }

  lemma {:induction false} SingleGroup(a: Byte)
    ensures DecodeGroup(EncodeGroup([a]) + "==") == [a]
  {
    var g, n := EncodeGroup([a]) + "==", a * 16;
    FourDigits(a, 0, 0);
    PushDigit(g, 0, Digit1(a));
    PushDigit(g, 1, Digit2(a, 0));
    assert Bits(g, 4) == n && Count(g, 4) == 12;
    Powers();
    ChopOne(n, 12, a, 0, a, 0);
    assert Chop(n, 4) == [];
  }

  lemma {:induction false} LastGroup(bytes: seq<Byte>)
    requires 1 <= |bytes| <= 3
    ensures Decoded(EncodeGroup(bytes)) == bytes
  {
    hide EncodeGroup, DecodeGroup;
    var s := EncodeGroup(bytes);
    if |bytes| == 1 {
      assert bytes == [bytes[0]] && Padding(|s|) == "==";
      SingleGroup(bytes[0]);
    } else if |bytes| == 2 {
      assert bytes == [bytes[0], bytes[1]] && Padding(|s|) == "=";
      PairGroup(bytes[0], bytes[1]);
    } else {
      assert bytes == [bytes[0], bytes[1], bytes[2]] && s + Padding(|s|) == s;
      FullGroup(bytes[0], bytes[1], bytes[2]);
    }
  }

  lemma {:induction false} DecodedConcat(g: string, rest: string)
    requires |g| == 4 && rest != ""
    ensures Decoded(g + rest) == DecodeGroup(g) + Decoded(rest)
  {
    var p := Padding(|rest|);
    assert Padding(|g + rest|) == p && (g + rest) + p == g + (rest + p);
    assert (g + (rest + p))[..4] == g && (g + (rest + p))[4..] == rest + p;
  }

  /** Decoding undoes encoding, whatever the number of bytes in the last group. */
  lemma {:induction false} RoundTrip(bytes: seq<Byte>)
    ensures Decoded(Encoded(bytes)) == bytes
  {
    if bytes == [] {
      assert Encoded(bytes) + Padding(0) == "";
    } else if |bytes| <= 3 {
      LastGroup(bytes);
    } else {
      FullGroup(bytes[0], bytes[1], bytes[2]);
      assert bytes[..3] == [bytes[0], bytes[1], bytes[2]];
      RoundTrip(bytes[3..]);
      DecodedConcat(EncodeGroup(bytes[..3]), Encoded(bytes[3..]));
      assert bytes == bytes[..3] + bytes[3..];
    }
  }

  // ----- section 4 of RFC 4648: the bits, six at a time

  /** The w lowest bits of n, most significant first. */
  function BitString(n: nat, w: nat): (b: seq<bool>)
    ensures |b| == w
  {
    if w == 0 then [] else BitString(n / 2, w - 1) + [n % 2 == 1]
  }

  /** Values written in w bits each. */
  function BitStrings(values: seq<nat>, w: nat): seq<bool>
  {
    if values == [] then [] else BitString(values[0], w) + BitStrings(values[1..], w)
  }

  /** The digits a text stands for. */
  function Values(s: string): (v: seq<nat>)
    ensures |v| == |s|
  {
    if s == "" then [] else [if DigitOf(s[0]) < 0 then 0 else DigitOf(s[0])] + Values(s[1..])
  }

  /** How many zero bits fill up the last sextet. */
  function Fill(n: nat): nat
  {
    if n % 3 == 0 then 0 else if n % 3 == 1 then 4 else 2
  }

  lemma {:induction false} BitsTogether(hi: nat, lo: nat, j: nat, k: nat)
    requires lo < Pow2(k)
    ensures BitString(hi * Pow2(k) + lo, j + k) == BitString(hi, j) + BitString(lo, k)
    decreases k
  {
    if k == 0 {
      assert hi * Pow2(0) + lo == hi;
    } else {
      var n, half := hi * Pow2(k) + lo, hi * Pow2(k - 1);
      assert n == 2 * half + lo;
      assert n / 2 == half + lo / 2 && n % 2 == lo % 2;
      BitsTogether(hi, lo / 2, j, k - 1);
    }
  }

  lemma {:induction false} Split(n: nat, m: nat, hi: nat, lo: nat, j: nat, k: nat, p: nat)
    requires m == j + k && p == Pow2(k) && n == hi * p + lo && lo < p
    ensures BitString(n, m) == BitString(hi, j) + BitString(lo, k)
  {
    BitsTogether(hi, lo, j, k);
  }

  lemma {:induction false} ZeroBits(k: nat)
    ensures BitString(0, k) == Repeat(false, k)
  {
    if k > 0 { ZeroBits(k - 1); }
  }

  lemma {:induction false} BitStringsConcat(x: seq<nat>, y: seq<nat>, w: nat)
    ensures BitStrings(x + y, w) == BitStrings(x, w) + BitStrings(y, w)
  {
    if x == [] {
      assert x + y == y;
    } else {
      assert (x + y)[1..] == x[1..] + y;
      BitStringsConcat(x[1..], y, w);
    }
  }

  lemma {:induction false} ValuesConcat(s: string, t: string)
    ensures Values(s + t) == Values(s) + Values(t)
  {
    if s == "" {
      assert s + t == t;
    } else {
      assert (s + t)[1..] == s[1..] + t;
      ValuesConcat(s[1..], t);
    }
  }

  ghost predicate Widths(o: nat, s: nat)
  {
    && o == 8 && s == 6
    && Pow2(o) == 256 && Pow2(o + o) == 65536 && Pow2(o + 2) == 1024 && Pow2(2) == 4 && Pow2(4) == 16
    && Pow2(s) == 64 && Pow2(s + s) == 4096 && Pow2(s + s + s) == 262144
  }

  /** The same bits cut into values of o bits and into values of s bits. */
  lemma {:induction false} TripleBits(a: nat, b: nat, c: nat, w: nat, x: nat, y: nat, z: nat, o: nat, s: nat)
    requires Widths(o, s) && b < 256 && c < 256 && x < 64 && y < 64 && z < 64
    requires a * 65536 + b * 256 + c == w * 262144 + x * 4096 + y * 64 + z
    ensures BitString(a, o) + (BitString(b, o) + BitString(c, o)) ==
      BitString(w, s) + (BitString(x, s) + (BitString(y, s) + BitString(z, s)))
  {
    hide BitString;
    var n, m, m2, m3, m4 := a * 65536 + b * 256 + c, o + o + o, o + o, s + s + s, s + s;
    Split(n, m, a, b * 256 + c, o, m2, 65536);
    Split(b * 256 + c, m2, b, c, o, o, 256);
    Split(n, m, w, x * 4096 + y * 64 + z, s, m3, 262144);
    Split(x * 4096 + y * 64 + z, m3, x, y * 64 + z, s, m4, 4096);
    Split(y * 64 + z, m4, y, z, s, s, 64);
  }

  lemma {:induction false} PairBits(a: nat, b: nat, w: nat, x: nat, y: nat, o: nat, s: nat)
    requires Widths(o, s) && b < 256 && x < 64 && y < 64
    requires a * 1024 + b * 4 == w * 4096 + x * 64 + y
    ensures BitString(a, o) + (BitString(b, o) + Repeat(false, 2)) == BitString(w,
      s) + (BitString(x, s) + BitString(y, s))
  {
    hide BitString;
    var n, m, m2, m3 := a * 1024 + b * 4, o + o + 2, o + 2, s + s;
    ZeroBits(2);
    Split(n, m, a, b * 4, o, m2, 1024);
    Split(b * 4, m2, b, 0, o, 2, 4);
    Split(n, m, w, x * 64 + y, s, m3, 4096);
    Split(x * 64 + y, m3, x, y, s, s, 64);
  }

  lemma {:induction false} SingleBits(a: nat, w: nat, x: nat, o: nat, s: nat)
    requires Widths(o, s) && x < 64 && a * 16 == w * 64 + x
    ensures BitString(a, o) + Repeat(false, 4) == BitString(w, s) + BitString(x, s)
  {
    ZeroBits(4);
    var n, m := a * 16, o + 4;
    Split(n, m, a, 0, o, 4, 16);
    Split(n, m, w, x, s, s, 64);
  }

  lemma {:induction false} MorePowers(o: nat, s: nat)
    requires o == 8 && s == 6
    ensures Widths(o, s)
  {
    Powers();
    assert Pow2(6) == 64 && Pow2(12) == 4096 && Pow2(14) == 16384 && Pow2(18) == 262144;
  }

  lemma {:induction false} UpToFour(v: seq<nat>, s: nat)
    requires |v| <= 4
    ensures |v| == 1 ==> BitStrings(v, s) == BitString(v[0], s)
    ensures |v| == 2 ==> BitStrings(v, s) == BitString(v[0], s) + BitString(v[1], s)
    ensures |v| == 3 ==> BitStrings(v, s) == BitString(v[0], s) + (BitString(v[1], s) + BitString(v[2], s))
    ensures |v| == 4 ==>
      BitStrings(v, s) == BitString(v[0], s) + (BitString(v[1], s) + (BitString(v[2], s) + BitString(v[3], s)))
  {
    if |v| > 1 { UpToFour(v[1..], s); }
  }

  lemma {:induction false} ValuesOfGroup(g: seq<Byte>)
    requires 1 <= |g| <= 3
    ensures Values(EncodeGroup(g)) ==
      if |g| == 1 then [Digit1(g[0]), Digit2(g[0], 0)]
      else if |g| == 2 then [Digit1(g[0]), Digit2(g[0], g[1]), Digit3(g[1], 0)]
      else [Digit1(g[0]), Digit2(g[0], g[1]), Digit3(g[1], g[2]), Digit4(g[2])]
  {
    FourDigits(g[0], if |g| > 1 then g[1] else 0, if |g| > 2 then g[2] else 0);
    ValuesAt(EncodeGroup(g));
  }

  lemma {:induction false} ValuesAt(s: string)
    ensures forall i {:trigger Values(s)[i]} :: 0 <= i < |s| ==>
      Values(s)[i] == if DigitOf(s[i]) < 0 then 0 else DigitOf(s[i])
  {
    if s != "" { ValuesAt(s[1..]); }
  }

  lemma {:induction false} GroupBits(g: seq<Byte>, o: nat, s: nat)
    requires 1 <= |g| <= 3 && o == 8 && s == 6
    ensures BitStrings(Values(EncodeGroup(g)), s) == BitStrings(g, o) + Repeat(false, Fill(|g|))
  {
    hide BitString, BitStrings, Values, EncodeGroup, Four, Char, Digit1, Digit2, Digit3, Digit4, Pow2, Repeat;
    var a, b, c := g[0], if |g| > 1 then g[1] else 0, if |g| > 2 then g[2] else 0;
    FourDigits(a, b, c);
    ValuesOfGroup(g);
    UpToFour(Values(EncodeGroup(g)), s);
    UpToFour(g, o);
    MorePowers(o, s);
    if |g| == 1 {
      SingleBits(a, Digit1(a), Digit2(a, 0), o, s);
    } else if |g| == 2 {
      PairBits(a, b, Digit1(a), Digit2(a, b), Digit3(b, 0), o, s);
      assert (BitString(a, o) + BitString(b, o)) + Repeat(false, 2) == BitString(a,
        o) + (BitString(b, o) + Repeat(false, 2));
    } else {
      TripleBits(a, b, c, Digit1(a), Digit2(a, b), Digit3(b, c), Digit4(c), o, s);
    }
  }

  lemma {:induction false} FillStep(n: nat)
    ensures Fill(n + 3) == Fill(n) && Fill(3) == 0
  {
    assert (n + 3) % 3 == n % 3;
  }

  lemma {:induction false} Chained(x: seq<bool>, y: seq<bool>, z: seq<bool>)
    ensures (x + Repeat(false, 0)) + (y + z) == (x + y) + z
  {
  }

  lemma {:induction false} EncodesMore(g: seq<Byte>, rest: seq<Byte>, o: nat, s: nat)
    requires o == 8 && s == 6 && |g| == 3
    requires BitStrings(Values(Encoded(rest)), s) == BitStrings(rest, o) + Repeat(false, Fill(|rest|))
    ensures BitStrings(Values(EncodeGroup(g) + Encoded(rest)), s) == BitStrings(g + rest, o) + Repeat(false,
      Fill(|g + rest|))
  {
    hide *;
    GroupBits(g, o, s);
    ValuesConcat(EncodeGroup(g), Encoded(rest));
    BitStringsConcat(Values(EncodeGroup(g)), Values(Encoded(rest)), s);
    BitStringsConcat(g, rest, o);
    FillStep(|rest|);
    Chained(BitStrings(g, o), BitStrings(rest, o), Repeat(false, Fill(|rest|)));
  }

  lemma {:induction false} EncodesAllBits(bytes: seq<Byte>, o: nat, s: nat)
    requires o == 8 && s == 6
    ensures BitStrings(Values(Encoded(bytes)), s) == BitStrings(bytes, o) + Repeat(false, Fill(|bytes|))
  {
    hide Values, BitString, EncodeGroup;
    if bytes == [] {
    } else if |bytes| <= 3 {
      GroupBits(bytes, o, s);
    } else {
      EncodesAllBits(bytes[3..], o, s);
      EncodesMore(bytes[..3], bytes[3..], o, s);
      assert bytes == bytes[..3] + bytes[3..];
    }
  }

  /** The text is the bit string of the bytes, filled up with zeros, six bits a character. */
  lemma {:induction false} EncodesBits(bytes: seq<Byte>)
    ensures BitStrings(Values(Encoded(bytes)), 6) == BitStrings(bytes, 8) + Repeat(false, Fill(|bytes|))
  {
    EncodesAllBits(bytes, 8, 6);
  }
}
