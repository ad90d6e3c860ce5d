/** The order of an index: documents compared field by field, each field ascending or
    descending, with a missing field of a bound below or above everything. */
module SortOrder {
  import opened Lists

  type DocId = string

  /** Field values. Values of one kind compare as usual. */
  datatype Scalar = Flag(b: bool) | Num(n: real) | Text(s: string)

  type Doc = map<string, Scalar>
  type Docs = map<DocId, Doc>

  datatype SortField = SortField(name: string, desc: bool)

  const ID_FIELD := "__id__"

  /** The values of the sort fields, in order; None where a field is missing. */
  datatype SortKey = SortKey(parts: seq<Option<Scalar>>)

  /** The value of a field: for the id field the id, which a bound gives among its values. */
  function FieldValue(f: SortField, id: Option<DocId>, doc: Doc): Option<Scalar>
  {
    if f.name == ID_FIELD && id.Some? then Some(Text(id.value))
    else if f.name in doc then Some(doc[f.name])
    else None
  }

  function Pick(fields: seq<SortField>, id: Option<DocId>, doc: Doc): (k: SortKey)
    ensures |k.parts| == |fields|
  {
    SortKey(seq(|fields|, i requires 0 <= i < |fields| => FieldValue(fields[i], id, doc)))
  }

  /** The sort key of a stored document; a missing document has no fields. */
  function KeyOf(fields: seq<SortField>, docs: Docs, id: DocId): (k: SortKey)
    ensures |k.parts| == |fields|
  {
    Pick(fields, Some(id), if id in docs then docs[id] else map[])
  }

  // ----- scalars

  predicate TextLess(s: string, t: string)
  {
    if s == [] then t != []
    else t != [] && (s[0] < t[0] || (s[0] == t[0] && TextLess(s[1..], t[1..])))
  }

  function Kind(x: Scalar): int
  {
    if x.Flag? then 0 else if x.Num? then 1 else 2
  }

  predicate ScalarLess(x: Scalar, y: Scalar)
  {
    if Kind(x) != Kind(y) then Kind(x) < Kind(y)
    else if x.Flag? then !x.b && y.b
    else if x.Num? then x.n < y.n
    else TextLess(x.s, y.s)
  }

  /** i is where s and t part: s ends there, or has the smaller character. */
  predicate PartAt(s: string, t: string, i: int)
  {
    && 0 <= i <= |s| && i <= |t| && s[..i] == t[..i]
    && (i == |s| < |t| || (i < |s| && i < |t| && s[i] < t[i]))
  }

  /** Texts compare by the first character in which they differ; a text comes before the
      longer ones that begin with it. */
  lemma {:induction false} TextOrder(s: string, t: string)
    ensures TextLess(s, t) <==> exists i {:trigger PartAt(s, t, i)} :: PartAt(s, t, i)
  {
    if s != [] && t != [] && s[0] == t[0] {
      TextOrder(s[1..], t[1..]);
      if TextLess(s[1..], t[1..]) {
        var i :| PartAt(s[1..], t[1..], i);
        assert s[..i + 1] == [s[0]] + s[1..][..i] && t[..i + 1] == [t[0]] + t[1..][..i];
        assert PartAt(s, t, i + 1);
      }
      if i :| PartAt(s, t, i) {
        assert i > 0 && s[1..][..i - 1] == s[..i][1..] && t[1..][..i - 1] == t[..i][1..];
        assert PartAt(s[1..], t[1..], i - 1);
      }
    } else {
      if TextLess(s, t) { assert PartAt(s, t, 0); }
      forall i | PartAt(s, t, i) ensures TextLess(s, t) {
        if i > 0 && s != [] && t != [] { PrefixesDiffer(s, t, 0, i); }
      }
    }
  }

  /** Numbers compare as numbers, texts by their first difference, false before true; flags
      come before numbers and numbers before texts. */
  lemma {:induction false} ScalarOrder(x: Scalar, y: Scalar)
    ensures ScalarLess(x, y) <==>
      || (x.Num? && y.Num? && x.n < y.n)
      || (x.Text? && y.Text? && exists i {:trigger PartAt(x.s, y.s, i)} :: PartAt(x.s, y.s, i))
      || (x == Flag(false) && y == Flag(true))
      || (x.Flag? && !y.Flag?) || (x.Num? && y.Text?)
  {
    if x.Text? && y.Text? { TextOrder(x.s, y.s); }
  }

  lemma {:induction false} TextTotal(s: string, t: string)
    ensures !TextLess(s, s)
    ensures s == t || TextLess(s, t) || TextLess(t, s)
    ensures !(TextLess(s, t) && TextLess(t, s))
  {
    if s != [] {
      TextTotal(s[1..], s[1..]);
      if t != [] {
        TextTotal(s[1..], t[1..]);
        if s[0] == t[0] && s[1..] == t[1..] { assert s == [s[0]] + s[1..] && t == [t[0]] + t[1..]; }
      }
    }
  }

  lemma {:induction false} TextTransitive(s: string, t: string, u: string)
    requires TextLess(s, t) && TextLess(t, u)
    ensures TextLess(s, u)
  {
    if s != [] && s[0] == t[0] && t[0] == u[0] { TextTransitive(s[1..], t[1..], u[1..]); }
  }

  lemma {:induction false} ScalarTotal(x: Scalar, y: Scalar)
    ensures !ScalarLess(x, x)
    ensures x == y || ScalarLess(x, y) || ScalarLess(y, x)
    ensures !(ScalarLess(x, y) && ScalarLess(y, x))
  {
    if x.Text? { TextTotal(x.s, x.s); }
    if x.Text? && y.Text? { TextTotal(x.s, y.s); }
  }

  lemma {:induction false} ScalarTransitive(x: Scalar, y: Scalar, z: Scalar)
    requires ScalarLess(x, y) && ScalarLess(y, z)
    ensures ScalarLess(x, z)
  {
    if x.Text? && y.Text? && z.Text? { TextTransitive(x.s, y.s, z.s); }
  }

  // ----- comparing sort keys

  /** One step of the comparison on unequal values, with the signs as they are multiplied there. */
  function FieldComp(desc: bool, va: Option<Scalar>, vb: Option<Scalar>, nullLast: bool): (c: int)
    requires va != vb
    ensures c == 1 || c == -1
  {
    var dir := if desc then -1 else 1;
    (if va.None? then dir * (if nullLast then -1 else 1)
     else if vb.None? then dir * (if nullLast then 1 else -1)
     else if ScalarLess(va.value, vb.value) then 1
     else -1) * dir
  }

  /** 1 when a comes before b, -1 when after, 0 when all fields from the i-th on agree. */
  function CompFrom(fields: seq<SortField>, a: SortKey, b: SortKey, nullLast: bool, i: nat): (c: int)
    ensures c == 0 || c == 1 || c == -1
    decreases |fields| - i
  {
    if i >= |fields| || i >= |a.parts| || i >= |b.parts| then 0
    else if a.parts[i] != b.parts[i] then FieldComp(fields[i].desc, a.parts[i], b.parts[i], nullLast)
    else CompFrom(fields, a, b, nullLast, i + 1)
  }

  function Comp(fields: seq<SortField>, a: SortKey, b: SortKey, nullLast: bool): (c: int)
    ensures c == 0 || c == 1 || c == -1
  {
    CompFrom(fields, a, b, nullLast, 0)
  }

  predicate Full(k: SortKey)
  {
    None !in k.parts
  }

  /** In the order of a field va comes before vb: the smaller value or, descending, the
      greater one; a missing value first or last. */
  predicate Earlier(desc: bool, va: Option<Scalar>, vb: Option<Scalar>, nullLast: bool)
  {
    if va.None? then vb.Some? && !nullLast
    else if vb.None? then nullLast
    else if desc then ScalarLess(vb.value, va.value)
    else ScalarLess(va.value, vb.value)
  }

  /** The i-th field is the first one in which a and b differ, and a is earlier there. */
  predicate FirstEarlier(fields: seq<SortField>, a: SortKey, b: SortKey, nullLast: bool, i: int)
  {
    && 0 <= i < |fields| && i < |a.parts| && i < |b.parts| && a.parts[..i] == b.parts[..i]
    && a.parts[i] != b.parts[i] && Earlier(fields[i].desc, a.parts[i], b.parts[i], nullLast)
  }

  /** The first field in which two keys differ decides which comes first. */
  lemma {:induction false} CompDecides(fields: seq<SortField>, a: SortKey, b: SortKey, nullLast: bool)
    ensures Comp(fields, a, b, nullLast) == 1 <==>
      exists i {:trigger FirstEarlier(fields, a, b, nullLast, i)} :: FirstEarlier(fields, a, b, nullLast, i)
  {
    CompDecidesFrom(fields, a, b, nullLast, 0);
  }

  lemma {:induction false} CompDecidesFrom(fields: seq<SortField>, a: SortKey, b: SortKey, nullLast: bool, i: nat)
    requires i <= |a.parts| && i <= |b.parts| && a.parts[..i] == b.parts[..i]
    ensures CompFrom(fields, a, b, nullLast, i) == 1 <==>
      exists j {:trigger FirstEarlier(fields, a, b, nullLast, j)} :: j >= i && FirstEarlier(fields, a, b, nullLast, j)
    decreases |fields| - i
  {
    if i < |fields| && i < |a.parts| && i < |b.parts| {
      if a.parts[i] == b.parts[i] {
        assert a.parts[..i + 1] == a.parts[..i] + [a.parts[i]] && b.parts[..i + 1] == b.parts[..i] + [b.parts[i]];
        CompDecidesFrom(fields, a, b, nullLast, i + 1);
        assert !FirstEarlier(fields, a, b, nullLast, i);
      } else {
        DecidedHere(fields, a, b, nullLast, i);
        forall j | j > i ensures !FirstEarlier(fields, a, b, nullLast, j) {
          if j < |a.parts| && j < |b.parts| { PrefixesDiffer(a.parts, b.parts, i, j); }
        }
      }
    }
  }

  lemma {:induction false} DecidedHere(fields: seq<SortField>, a: SortKey, b: SortKey, nullLast: bool, i: nat)
    requires i < |fields| && i < |a.parts| && i < |b.parts| && a.parts[..i] == b.parts[..i] && a.parts[i] != b.parts[i]
    ensures CompFrom(fields, a, b, nullLast, i) == 1 <==> FirstEarlier(fields, a, b, nullLast, i)
  {
    FieldCompIs(fields[i].desc, a.parts[i], b.parts[i], nullLast);
    assert CompFrom(fields, a, b, nullLast, i) == FieldComp(fields[i].desc, a.parts[i], b.parts[i], nullLast);
  }

  lemma {:induction false} FieldCompIs(desc: bool, va: Option<Scalar>, vb: Option<Scalar>, nullLast: bool)
    requires va != vb
    ensures FieldComp(desc, va, vb, nullLast) == 1 <==> Earlier(desc, va, vb, nullLast)
  {
    if va.Some? && vb.Some? { ScalarTotal(va.value, vb.value); }
  }

  lemma {:induction false} FieldCompFlips(desc: bool, va: Option<Scalar>, vb: Option<Scalar>, nullLast: bool)
    requires va != vb
    ensures FieldComp(desc, vb, va, nullLast) == -FieldComp(desc, va, vb, nullLast)
  {
    if va.Some? && vb.Some? { ScalarTotal(va.value, vb.value); }
  }

  lemma {:induction false} FieldCompTransitive(desc: bool, va: Option<Scalar>, vb: Option<Scalar>, vc: Option<Scalar>,
      nullLast: bool)
    requires va != vb && vb != vc && FieldComp(desc, va, vb, nullLast) == 1 && FieldComp(desc, vb, vc, nullLast) == 1
    ensures va != vc && FieldComp(desc, va, vc, nullLast) == 1
  {
    FieldCompFlips(desc, va, vb, nullLast);
    if va.Some? && vb.Some? && vc.Some? {
      ScalarTotal(va.value, vb.value);
      ScalarTotal(vb.value, vc.value);
      if desc { ScalarTransitive(vc.value, vb.value, va.value); }
          else { ScalarTransitive(va.value, vb.value, vc.value); }
      ScalarTotal(va.value, vc.value);
    }
  }

  lemma {:induction false} CompFlipsFrom(fields: seq<SortField>, a: SortKey, b: SortKey, nullLast: bool, i: nat)
    requires |a.parts| == |b.parts| == |fields|
    ensures CompFrom(fields, b, a, nullLast, i) == -CompFrom(fields, a, b, nullLast, i)
    ensures CompFrom(fields, a, b, nullLast, i) == 0 <==> forall j :: i <= j < |fields| ==> a.parts[j] == b.parts[j]
    decreases |fields| - i
  {
    if i < |fields| {
      if a.parts[i] != b.parts[i] { FieldCompFlips(fields[i].desc, a.parts[i], b.parts[i], nullLast); }
      else { CompFlipsFrom(fields, a, b, nullLast, i + 1); }
    }
  }

  lemma {:induction false} CompTransitiveFrom(fields: seq<SortField>, a: SortKey, b: SortKey, c: SortKey,
      nullLast: bool, i: nat)
    requires |a.parts| == |b.parts| == |c.parts| == |fields|
    requires CompFrom(fields, a, b, nullLast, i) == 1 && CompFrom(fields, b, c, nullLast, i) == 1
    ensures CompFrom(fields, a, c, nullLast, i) == 1
    decreases |fields| - i
  {
    if i < |fields| {
      if a.parts[i] == b.parts[i] == c.parts[i] {
        CompTransitiveFrom(fields, a, b, c, nullLast, i + 1);
      } else if a.parts[i] != b.parts[i] && b.parts[i] != c.parts[i] {
        FieldCompTransitive(fields[i].desc, a.parts[i], b.parts[i], c.parts[i], nullLast);
      }
    }
  }

  /** For either placement of missing fields, comp is a strict total order: it is
      antisymmetric, only equal keys compare as 0, and it is transitive. */
  lemma {:induction false} CompIsTotalOrder(fields: seq<SortField>, a: SortKey, b: SortKey, c: SortKey, nullLast: bool)
    requires |a.parts| == |b.parts| == |c.parts| == |fields|
    ensures Comp(fields, b, a, nullLast) == -Comp(fields, a, b, nullLast)
    ensures Comp(fields, a, b, nullLast) == 0 <==> a == b
    ensures Comp(fields, a, b, nullLast) == 1 && Comp(fields, b, c, nullLast) >= 0 ==> Comp(fields, a, c, nullLast) == 1
    ensures Comp(fields, a, b, nullLast) >= 0 && Comp(fields, b, c, nullLast) == 1 ==> Comp(fields, a, c, nullLast) == 1
  {
    CompFlipsFrom(fields, a, b, nullLast, 0);
    CompFlipsFrom(fields, b, c, nullLast, 0);
    if Comp(fields, a, b, nullLast) == 0 { assert a.parts == b.parts; }
    if Comp(fields, b, c, nullLast) == 0 { assert b.parts == c.parts; }
    if Comp(fields, a, b, nullLast) == 1 && Comp(fields, b, c, nullLast) == 1 {
      CompTransitiveFrom(fields, a, b, c, nullLast, 0);
    }
  }

  lemma {:induction false} FullIgnoresNullsFrom(fields: seq<SortField>, a: SortKey, b: SortKey, i: nat)
    requires |a.parts| == |b.parts| == |fields| && Full(a) && Full(b)
    ensures CompFrom(fields, a, b, true, i) == CompFrom(fields, a, b, false, i)
    decreases |fields| - i
  {
    if i < |fields| {
      assert a.parts[i] in a.parts && b.parts[i] in b.parts;
      FullIgnoresNullsFrom(fields, a, b, i + 1);
    }
  }

  // ----- comparing by part of the fields

  /** Fields on which two keys agree do not matter. */
  lemma {:induction false} CompSkip(fields: seq<SortField>, a: SortKey, b: SortKey, nullLast: bool, i: nat, j: nat)
    requires |a.parts| == |b.parts| == |fields| && i <= j <= |fields|
    requires forall t {:trigger a.parts[t]} :: i <= t < j ==> a.parts[t] == b.parts[t]
    ensures CompFrom(fields, a, b, nullLast, i) == CompFrom(fields, a, b, nullLast, j)
    decreases j - i
  {
    if i < j {
      assert a.parts[i] == b.parts[i];
      CompSkip(fields, a, b, nullLast, i + 1, j);
    }
  }

  /** The t-th field of g and its values are those of f that stand `shift` further on. */
  predicate AlikeAt(f: seq<SortField>, a: SortKey, b: SortKey, g: seq<SortField>, c: SortKey, d: SortKey, shift: int,
      t: int)
    requires |a.parts| == |b.parts| == |f| && |c.parts| == |d.parts| == |g|
  {
    && 0 <= t < |g| && 0 <= t + shift < |f| && f[t + shift] == g[t]
    && a.parts[t + shift] == c.parts[t] && b.parts[t + shift] == d.parts[t]
  }

  /** Comparing by fewer fields gives the same, or a tie. */
  lemma {:induction false} CompShift(f: seq<SortField>, a: SortKey, b: SortKey, g: seq<SortField>, c: SortKey,
      d: SortKey, shift: int, j: nat, nullLast: bool)
    requires |a.parts| == |b.parts| == |f| && |c.parts| == |d.parts| == |g| && 0 <= j + shift && j <= |g|
    requires forall t {:trigger AlikeAt(f, a, b, g, c, d, shift, t)} :: j <= t < |g| ==>
      AlikeAt(f, a, b, g, c, d, shift, t)
    ensures CompFrom(g, c, d, nullLast, j) == 0
      || CompFrom(g, c, d, nullLast, j) == CompFrom(f, a, b, nullLast, j + shift)
    decreases |g| - j
  {
    if j < |g| {
      assert AlikeAt(f, a, b, g, c, d, shift, j);
      CompShift(f, a, b, g, c, d, shift, j + 1, nullLast);
    }
  }

  // ----- bounds

  /** How x stands to the fields a bound gives, up to the first one it leaves out:
      -1 before them, 0 agreeing with all of them, 1 after them. */
  function Against(fields: seq<SortField>, bound: SortKey, x: SortKey, i: nat): (c: int)
    requires |bound.parts| == |x.parts| == |fields|
    decreases |fields| - i
  {
    if i >= |fields| || bound.parts[i].None? then 0
    else if x.parts[i] == bound.parts[i] then Against(fields, bound, x, i + 1)
    else if x.parts[i].Some? && (if fields[i].desc then ScalarLess(bound.parts[i].value, x.parts[i].value)
                                 else ScalarLess(x.parts[i].value, bound.parts[i].value)) then -1
    else 1
  }

  lemma {:induction false} BoundComp(fields: seq<SortField>, bound: SortKey, x: SortKey, nullLast: bool, i: nat)
    requires |bound.parts| == |x.parts| == |fields| && Full(x)
    ensures Against(fields, bound, x, i) != 0 ==>
      CompFrom(fields, bound, x, nullLast, i) == Against(fields, bound, x, i)
    ensures Against(fields, bound, x, i) == 0 ==>
      CompFrom(fields, bound, x, nullLast, i) ==
        if forall j {:trigger bound.parts[j]} :: i <= j < |fields| ==>
            bound.parts[j].Some? then 0 else if nullLast then -1 else 1
    decreases |fields| - i
  {
    if i < |fields| {
      assert x.parts[i] in x.parts;
      if bound.parts[i].Some? {
        if bound.parts[i] == x.parts[i] { BoundComp(fields, bound, x, nullLast, i + 1); }
        else { ScalarTotal(x.parts[i].value, bound.parts[i].value); }
      }
    }
  }
}
