/** Sequence vocabulary shared by the models: gathering rows, searching for an
    element, and the positions an element of a gathered sequence comes from. */
module Lists {

  datatype Option<+T> = None | Some(value: T)

  /** The rows of the elements of xs, one after the other. */
  function Gather<A, T>(row: A -> seq<T>, xs: seq<A>): seq<T>
  {
    if xs == [] then [] else row(xs[0]) + Gather(row, xs[1..])
  }

  lemma {:induction false} GatherConcat<A, T>(row: A -> seq<T>, xs: seq<A>, ys: seq<A>)
    ensures Gather(row, xs + ys) == Gather(row, xs) + Gather(row, ys)
  {
    if xs == [] {
      assert xs + ys == ys;
    } else {
      assert (xs + ys)[1..] == xs[1..] + ys;
      GatherConcat(row, xs[1..], ys);
    }
  }

  lemma {:induction false} GatherFrame<A, T>(row: A -> seq<T>, row': A -> seq<T>, xs: seq<A>)
    requires forall i :: 0 <= i < |xs| ==> row(xs[i]) == row'(xs[i])
    ensures Gather(row, xs) == Gather(row', xs)
  {
    if xs != [] {
      assert row(xs[0]) == row'(xs[0]);
      forall i | 0 <= i < |xs[1..]| ensures row(xs[1..][i]) == row'(xs[1..][i]) {
        assert xs[1..][i] == xs[i + 1];
      }
      GatherFrame(row, row', xs[1..]);
    }
  }

  lemma {:induction false} GatherSplit<A, T>(row: A -> seq<T>, a: seq<A>, m: seq<A>, b: seq<A>)
    ensures Gather(row, a + m + b) == Gather(row, a) + Gather(row, m) + Gather(row, b)
  {
    GatherConcat(row, a + m, b);
    GatherConcat(row, a, m);
  }

  /** Replacing a middle stretch by one that gathers to the same elements. */
  lemma {:induction false} GatherOne<A, T>(row: A -> seq<T>, x: A)
    ensures Gather(row, [x]) == row(x)
  {
    assert [x][1..] == [];
  }

  lemma {:induction false} GatherTwo<A, T>(row: A -> seq<T>, x: A, y: A)
    ensures Gather(row, [x, y]) == row(x) + row(y)
  {
    GatherOne(row, y);
    assert [x, y][1..] == [y];
  }

  /** A gathered sequence around row j. */
  lemma {:induction false} GatherAround<A, T>(row: A -> seq<T>, xs: seq<A>, j: nat)
    requires j < |xs|
    ensures Gather(row, xs) == Gather(row, xs[..j]) + row(xs[j]) + Gather(row, xs[j + 1..])
  {
    assert xs == xs[..j] + [xs[j]] + xs[j + 1..];
    GatherSplit(row, xs[..j], [xs[j]], xs[j + 1..]);
    GatherOne(row, xs[j]);
  }

  lemma {:induction false} Regrouped<T>(a: seq<T>, b: seq<T>, c: seq<T>, d: seq<T>, e: seq<T>)
    ensures a + (b + c + d) + e == (a + b) + c + (d + e)
  {
  }

  /** Element k of row j sits behind everything the rows before it contribute. */
  lemma {:induction false} GatherAt<A, T>(row: A -> seq<T>, xs: seq<A>, j: nat, k: nat)
    requires j < |xs| && k < |row(xs[j])|
    ensures |Gather(row, xs[..j])| + k < |Gather(row, xs)|
    ensures Gather(row, xs)[|Gather(row, xs[..j])| + k] == row(xs[j])[k]
  {
    assert xs == xs[..j] + [xs[j]] + xs[j + 1..];
    GatherSplit(row, xs[..j], [xs[j]], xs[j + 1..]);
    GatherOne(row, xs[j]);
  }

  lemma {:induction false} GatherMember<A, T>(row: A -> seq<T>, xs: seq<A>, j: nat, c: T)
    requires j < |xs| && c in row(xs[j])
    ensures c in Gather(row, xs)
  {
    var k :| 0 <= k < |row(xs[j])| && row(xs[j])[k] == c;
    GatherAt(row, xs, j, k);
  }

  /** Every position of a gathered sequence lies in exactly one row. */
  lemma {:induction false} GatherLocate<A, T>(row: A -> seq<T>, xs: seq<A>, p: nat) returns (j: nat, k: nat)
    requires p < |Gather(row, xs)|
    ensures j < |xs| && k < |row(xs[j])|
    ensures p == |Gather(row, xs[..j])| + k
    ensures Gather(row, xs)[p] == row(xs[j])[k]
  {
    if p < |row(xs[0])| {
      j, k := 0, p;
      assert xs[..0] == [];
    } else {
      var j', k' := GatherLocate(row, xs[1..], p - |row(xs[0])|);
      j, k := j' + 1, k';
      assert xs[..j][1..] == xs[1..][..j'];
    }
  }

  ghost predicate Differ<T>(x: seq<T>, i: int, y: seq<T>, j: int)
  {
    0 <= i < |x| && 0 <= j < |y| ==> x[i] != y[j]
  }

  ghost predicate NoDup<T>(xs: seq<T>)
  {
    forall i, j {:trigger Differ(xs, i, xs, j)} :: i < j ==> Differ(xs, i, xs, j)
  }

  ghost predicate Apart<T>(x: seq<T>, y: seq<T>)
  {
    forall c {:trigger c in x} {:trigger c in y} :: c in x ==> c !in y
  }

  lemma {:induction false} ApartDiffers<T>(x: seq<T>, y: seq<T>)
    ensures Apart(x, y) <==> forall i, j {:trigger Differ(x, i, y, j)} :: Differ(x, i, y, j)
  {
    if forall i, j {:trigger Differ(x, i, y, j)} :: Differ(x, i, y, j) {
      forall c | c in x ensures c !in y {
        var i :| 0 <= i < |x| && x[i] == c;
        forall j | 0 <= j < |y| ensures y[j] != c { assert Differ(x, i, y, j); }
      }
    }
    if Apart(x, y) {
      forall i, j ensures Differ(x, i, y, j) {
        if 0 <= i < |x| && 0 <= j < |y| { assert x[i] in x && y[j] in y; }
      }
    }
  }

  lemma {:induction false} NoDupConcat<T>(x: seq<T>, y: seq<T>)
    ensures NoDup(x + y) <==> NoDup(x) && NoDup(y) && Apart(x, y)
  {
    ApartDiffers(x, y);
    var l := x + y;
    if NoDup(l) {
      forall i, j | i < j ensures Differ(x, i, x, j) { assert Differ(l, i, l, j); }
      forall i, j | i < j ensures Differ(y, i, y, j) { assert Differ(l, |x| + i, l, |x| + j); }
      forall i, j ensures Differ(x, i, y, j) {
        if 0 <= i < |x| && 0 <= j < |y| { assert Differ(l, i, l, |x| + j); }
      }
    }
    if NoDup(x) && NoDup(y) && Apart(x, y) {
      forall i, j | i < j ensures Differ(l, i, l, j) {
        assert Differ(x, i, x, j) && Differ(y, i - |x|, y, j - |x|) && Differ(x, i, y, j - |x|);
      }
    }
  }

  lemma {:induction false} NoDupParts<T>(a: seq<T>, m: seq<T>, b: seq<T>)
    ensures NoDup(a + m + b) <==> NoDup(a) && NoDup(m) && NoDup(b) && Apart(a, m) && Apart(a, b) && Apart(m, b)
  {
    NoDupConcat(a + m, b);
    NoDupConcat(a, m);
    assert forall c :: c in a + m <==> c in a || c in m;
  }

  /** A middle stretch may be replaced by elements it held or that are new. */
  lemma {:induction false} NoDupPatch<T>(a: seq<T>, m: seq<T>, m': seq<T>, b: seq<T>)
    requires NoDup(a + m + b) && NoDup(m')
    requires forall k {:trigger m'[k]} :: 0 <= k < |m'| ==> m'[k] in m || (m'[k] !in a && m'[k] !in b)
    ensures NoDup(a + m' + b)
  {
    NoDupParts(a, m, b);
    forall c | c in m' ensures c !in a && c !in b {
      var k :| 0 <= k < |m'| && m'[k] == c;
    }
    NoDupParts(a, m', b);
  }

  /** In a sequence without duplicates a position is the only one of its element. */
  lemma {:induction false} OnlyAt<T>(xs: seq<T>, i: nat, j: nat)
    requires NoDup(xs) && i < |xs| && j < |xs| && xs[i] == xs[j]
    ensures i == j
  {
    assert Differ(xs, i, xs, j) || i >= j;
    assert Differ(xs, j, xs, i) || j >= i;
  }

  function Repeat<T>(x: T, n: nat): (r: seq<T>)
    ensures |r| == n && forall i {:trigger r[i]} :: 0 <= i < n ==> r[i] == x
  {
    if n == 0 then [] else Repeat(x, n - 1) + [x]
  }

  lemma {:induction false} SomeMember<T>(xs: seq<T>)
    ensures xs == [] || exists x :: x in xs
  {
    if xs != [] {
      var x := xs[0];
      assert x in xs;
    }
  }

  /** The first position of x, or -1. */
  function IndexOf<T(==)>(x: T, xs: seq<T>): (i: int)
    ensures -1 <= i < |xs|
    ensures i >= 0 ==> xs[i] == x && forall k :: 0 <= k < i ==> xs[k] != x
    ensures i < 0 ==> x !in xs
  {
    if xs == [] then -1
    else if xs[0] == x then 0
    else
      var r := IndexOf(x, xs[1..]);
      assert forall k :: 0 < k < |xs| ==> xs[k] == xs[1..][k - 1];
      if r < 0 then -1 else r + 1
  }

  lemma {:induction false} Index3<T>(a: seq<T>, m: seq<T>, b: seq<T>)
    ensures forall i {:trigger a[i]} :: 0 <= i < |a| ==> (a + m + b)[i] == a[i]
    ensures forall i {:trigger m[i]} :: 0 <= i < |m| ==> (a + m + b)[|a| + i] == m[i]
    ensures forall i {:trigger b[i]} :: 0 <= i < |b| ==> (a + m + b)[|a| + |m| + i] == b[i]
  {
  }

  lemma {:induction false} PrefixesDiffer<T>(x: seq<T>, y: seq<T>, i: nat, n: nat)
    requires i < n <= |x| && n <= |y| && x[i] != y[i]
    ensures x[..n] != y[..n]
  {
    assert x[..n][i] == x[i] && y[..n][i] == y[i];
  }
}
