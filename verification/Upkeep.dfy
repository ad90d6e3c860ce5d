/** Taking a document out of its leaf, and keeping the separators above in step with a
    leaf's first document. */
module Upkeep {
  import opened Lists
  import opened SortOrder
  import opened Layout
  import opened Regroup
  import opened Steps
  import opened Repair
  import opened TreeInvariant
  import opened Descent
  import opened LeafOrder
  import opened Removal
  import opened Shrinking

  // ----- respelling separators

  ghost predicate Respelt(n: Node, n': Node)
  {
    if n.Leaf? then n' == n else n'.Inner? && |n'.vals| == |n.vals| && n' == n.(vals := n'.vals)
  }

  /** Only separators of inner nodes differ. */
  ghost predicate Respelled(ns: Nodes, ns': Nodes)
  {
    ns'.Keys == ns.Keys && forall u {:trigger ns'[u]} {:trigger ns[u]} :: u in ns ==> Respelt(ns[u], ns'[u])
  }

  lemma {:induction false} RespelledKeeps(t: Shape, t': Shape, root: Option<NodeId>, count: int, lo: nat, hi: nat,
      odd: set<NodeId>)
    requires Whole(t, root, count, lo, hi, odd) && Respelled(t.ns, t'.ns) && Tree(t', root) && t'.levels == t.levels
    requires t'.height == t.height
    ensures Whole(t', root, count, lo, hi, odd) && Contents(t'.ns, t'.levels) == Contents(t.ns, t.levels)
  {
    forall e: nat, u | e < |t'.levels| && u in t'.levels[e] ensures SizeOk(t'.ns, root, lo, hi, u) {
      assert u in t.levels[e] && SizeOk(t.ns, root, lo, hi, u) && Respelt(t.ns[u], t'.ns[u]);
    }
    forall u | u in t'.ns
      ensures 0 <= u <= count && (u == 0 ==> t'.ns[u].Leaf?) && (t'.ns[u].Leaf? && u !in odd ==> OnLevel(t', 0, u)) {
      assert u in t.ns && Respelt(t.ns[u], t'.ns[u]);
      assert t.ns[u].Leaf? && u !in odd ==> OnLevel(t, 0, u);
    }
    if t.levels != [] { RespelledIds(t, t', root); }
  }

  lemma {:induction false} RespelledIds(t: Shape, t': Shape, root: Option<NodeId>)
    requires Tree(t, root) && Respelled(t.ns, t'.ns) && t'.levels == t.levels && t.levels != []
    ensures Contents(t'.ns, t'.levels) == Contents(t.ns, t.levels)
  {
    assert LevelAt(t, 0);
    var xs := t.levels[0];
    forall i | 0 <= i < |xs| ensures IdRow(t.ns)(xs[i]) == IdRow(t'.ns)(xs[i]) {
      assert InPlace(t.ns, t.first, t.height, 0, xs[i]) && Respelt(t.ns[xs[i]], t'.ns[xs[i]]);
    }
    GatherFrame(IdRow(t.ns), IdRow(t'.ns), xs);
  }

  /** Leaves keep their documents, and those but z their smallest key, which z now has right. */
  lemma {:induction false} RespelledKeys(t: Shape, t': Shape, fields: seq<SortField>, docs: Docs, z: NodeId)
    requires Keyed(t, fields, docs, {z}) && Respelled(t.ns, t'.ns) && t'.levels == t.levels && t.levels != []
    requires forall u {:trigger SameFirst(t.first, t'.first, u)} :: u in t.levels[0] && u != z ==>
      SameFirst(t.first, t'.first, u)
    requires OnLevel(t, 0, z) ==> LeafFirst(t'.ns, t'.first, fields, docs, z)
    ensures Keyed(t', fields, docs, {})
  {
    forall u | OnLevel(t', 0, u) ensures LeafFirst(t'.ns, t'.first, fields, docs, u) {
      if u != z {
        assert OnLevel(t, 0, u) && LeafFirst(t.ns, t.first, fields, docs, u) && Respelt(t.ns[u], t'.ns[u])
          && SameFirst(t.first, t'.first, u);
      }
    }
  }

  /** Halfway through a repair, n's parent is where it should be. */
  lemma {:induction false} HalfParent(t: Shape, root: Option<NodeId>, F: Firsts, d: nat, n: NodeId)
    requires Half(t, root, F, d, n)
    ensures n in t.ns && (t.ns[n].parent.None? <==> d + 1 == |t.levels|)
    ensures t.ns[n].parent.Some? ==>
      var q := t.ns[n].parent.value;
      && OnLevel(t, d + 1, q) && InPlace(t.ns, t.first, t.height, d + 1, q) && t.ns[q].Inner?
      && |t.ns[q].children| == |t.ns[q].vals| + 1
      && 0 <= IndexOf(n, Kids(t.ns, q)) <= |t.ns[q].vals|
  {
    assert LevelAt(t, d);
    if d + 1 < |t.levels| {
      var tF := t.(first := F);
      assert JoinedAt(tF, d) && LevelAt(t, d + 1);
      HalfOldLevel(t, root, F, d, n, d);
      var q, j, k := FindOwner(tF, d, n);
      assert InPlace(t.ns, t.first, t.height, d + 1, t.levels[d + 1][j]);
    } else {
      assert t.levels[d] == [root.value];
    }
  }

  ghost predicate FirstsKept(t: Shape, t': Shape)
  {
    t.levels != [] ==>
        forall u {:trigger SameFirst(t.first, t'.first, u)} :: u in t.levels[0] ==> SameFirst(t.first, t'.first, u)
  }

  lemma {:induction false} FirstsKeptTwice(t: Shape, t1: Shape, t2: Shape)
    requires FirstsKept(t, t1) && FirstsKept(t1, t2) && t1.levels == t.levels
    ensures FirstsKept(t, t2)
  {
    if t.levels != [] {
      forall u | u in t.levels[0] ensures SameFirst(t.first, t2.first, u) {
        assert SameFirst(t.first, t1.first, u) && SameFirst(t1.first, t2.first, u);
      }
    }
  }

  /** n is a leftmost child: the repair moves on to its parent. */
  lemma {:induction false} StepUp(t: Shape, root: Option<NodeId>, F: Firsts, d: nat, n: NodeId, q: NodeId)
    requires Half(t, root, F, d, n) && d + 1 < |t.levels|
    requires n in t.ns && t.ns[n].parent == Some(q) && IndexOf(n, Kids(t.ns, q)) == 0
    ensures q in t.ns && Half(t.(first := t.first[q := t.first[n]]), root, F, d + 1, q)
    ensures FirstsKept(t, t.(first := t.first[q := t.first[n]]))
  {
    UpHere(t, root, F, d, n, q);
    RepairUp(t, root, F, d, n, q);
    assert LevelAt(t, 0);
    forall u | u in t.levels[0] ensures SameFirst(t.first, t.first[q := t.first[n]], u) {
      assert InPlace(t.ns, t.first, t.height, 0, u);
    }
  }

  // ----- a document leaves its leaf

  lemma {:induction false} KeyedWithout(t: Shape, fields: seq<SortField>, docs: Docs, key: DocId, except: set<NodeId>)
    requires Keyed(t, fields, docs, except) && key !in Contents(t.ns, t.levels)
    ensures Keyed(t, fields, docs - {key}, except)
  {
    forall u | OnLevel(t, 0, u) && u !in except ensures LeafFirst(t.ns, t.first, fields, docs - {key}, u) {
      LeafKeyed(t, fields, docs, key, u);
    }
  }

  lemma {:induction false} LeafKeyed(t: Shape, fields: seq<SortField>, docs: Docs, key: DocId, u: NodeId)
    requires OnLevel(t, 0, u) && LeafFirst(t.ns, t.first, fields, docs, u) && key !in Contents(t.ns, t.levels)
    ensures LeafFirst(t.ns, t.first, fields, docs - {key}, u)
  {
    var i :| 0 <= i < |t.levels[0]| && t.levels[0][i] == u;
    var m := LeafStart(t, i);
    assert Ids(t.ns, u)[0] == Contents(t.ns, t.levels)[m + 0];
    var x := t.ns[u].ids[0];
    assert x != key && (x in docs - {key} <==> x in docs);
    assert KeyOf(fields, docs - {key}, x) == KeyOf(fields, docs, x);
  }

  /** Leaf u no longer holds its j-th document. */
  ghost predicate LeafLoses(ns: Nodes, ns': Nodes, u: NodeId, j: nat)
  {
    u in ns && ns[u].Leaf? && j < |ns[u].ids| && ns' == ns[u := ns[u].(ids := ns[u].ids[..j] + ns[u].ids[j + 1..])]
  }

  lemma {:induction false} LostRow(c: seq<DocId>, c': seq<DocId>, a: seq<DocId>, ids: seq<DocId>, b: seq<DocId>, j: nat)
    requires j < |ids| && c == a + ids + b && c' == a + (ids[..j] + ids[j + 1..]) + b
    ensures |a| + j < |c| && c' == c[..|a| + j] + c[|a| + j + 1..]
  {
  }

  lemma {:induction false} LostContents(t: Shape, root: Option<NodeId>, i: nat, m: nat, j: nat, ns': Nodes)
    requires Tree(t, root) && t.levels != [] && i < |t.levels[0]| && m == |Gather(IdRow(t.ns), t.levels[0][..i])|
    requires LeafLoses(t.ns, ns', t.levels[0][i], j)
    ensures m + j < |Contents(t.ns, t.levels)|
    ensures Contents(ns', t.levels) == Contents(t.ns, t.levels)[..m + j] + Contents(t.ns, t.levels)[m + j + 1..]
    ensures Tree(t.(ns := ns'), root)
  {
    var u := t.levels[0][i];
    LeafEdit(t, root, i, ns');
    LeafContents(t.ns, t.levels[0], i);
    assert Ids(ns', u) == Ids(t.ns, u)[..j] + Ids(t.ns, u)[j + 1..];
    LostRow(Contents(t.ns, t.levels), Contents(ns', t.levels),
      Gather(IdRow(t.ns), t.levels[0][..i]), Ids(t.ns, u), Gather(IdRow(t.ns), t.levels[0][i + 1..]), j);
  }

  lemma {:induction false} LostOnce(c: seq<DocId>, p: nat)
    requires NoDup(c) && p < |c|
    ensures c[p] !in c[..p] + c[p + 1..]
  {
    var c' := c[..p] + c[p + 1..];
    forall k | 0 <= k < |c'| ensures c'[k] != c[p] {
      assert c'[k] == c[if k < p then k else k + 1];
      assert k < p ==> Differ(c, k, c, p);
      assert p <= k ==> Differ(c, p, c, k + 1);
    }
  }

  lemma {:induction false} SortedForget(fields: seq<SortField>, docs: Docs, c: seq<DocId>, key: DocId)
    requires Sorted(fields, docs, c) && key !in c
    ensures Sorted(fields, docs - {key}, c)
  {
    forall i | 0 <= i < |c|
        ensures c[i] in docs - {key} && KeyOf(fields, docs - {key}, c[i]) == KeyOf(fields, docs, c[i]) {
      assert c[i] in c;
    }
    SortedFrame(fields, docs, docs - {key}, c);
  }

  lemma {:induction false} SortedLoss(fields: seq<SortField>, docs: Docs, c: seq<DocId>, p: nat)
    requires Sorted(fields, docs, c) && p < |c|
    ensures c[p] !in c[..p] + c[p + 1..] && Sorted(fields, docs - {c[p]}, c[..p] + c[p + 1..])
  {
    SortedDistinct(fields, docs, c);
    LostOnce(c, p);
    SortedWithout(fields, docs, c, p);
    SortedForget(fields, docs, c[..p] + c[p + 1..], c[p]);
  }

  lemma {:induction false} LeafRemoveOrder(t: Shape, root: Option<NodeId>, fields: seq<SortField>, docs: Docs, i: nat,
      m: nat, j: nat, key: DocId, ns': Nodes)
    requires Tree(t, root) && Sorted(fields, docs, Contents(t.ns, t.levels))
    requires t.levels != [] && i < |t.levels[0]| && m == |Gather(IdRow(t.ns), t.levels[0][..i])|
    requires LeafLoses(t.ns, ns', t.levels[0][i], j) && m + j < |Contents(t.ns, t.levels)|
    requires Contents(t.ns, t.levels)[m + j] == key
    ensures Contents(ns', t.levels) == Contents(t.ns, t.levels)[..m + j] + Contents(t.ns, t.levels)[m + j + 1..]
    ensures key !in Contents(ns', t.levels) && Sorted(fields, docs - {key}, Contents(ns', t.levels))
  {
    LostContents(t, root, i, m, j, ns');
    SortedLoss(fields, docs, Contents(t.ns, t.levels), m + j);
  }

  lemma {:induction false} LeafRemoveKeys(t: Shape, root: Option<NodeId>, fields: seq<SortField>, docs: Docs,
      u: NodeId, j: nat, ns': Nodes)
    requires Keyed(t, fields, docs, {}) && OnLevel(t, 0, u) && LeafLoses(t.ns, ns', u, j)
    requires t.ns[u].ids[j] !in Contents(ns', t.levels)
    ensures Keyed(t.(ns := ns'), fields, docs - {t.ns[u].ids[j]}, {u})
    ensures j > 0 ==> LeafFirst(ns', t.first, fields, docs - {t.ns[u].ids[j]}, u)
  {
    var t' := t.(ns := ns');
    forall v | OnLevel(t, 0, v) && v != u ensures SameFirst(t.first, t'.first, v) {
      assert LeafFirst(t.ns, t.first, fields, docs, v);
    }
    EditedKeyed(t, t', fields, docs, u);
    KeyedWithout(t', fields, docs, t.ns[u].ids[j], {u});
    if j > 0 {
      assert LeafFirst(t.ns, t.first, fields, docs, u) && LeafFirst(ns', t'.first, fields, docs, u);
      LeafKeyed(t', fields, docs, t.ns[u].ids[j], u);
    }
  }

  /** A leaf one document short, its smallest key possibly that of the document it lost. */
  lemma {:induction false} LeafRemove(t: Shape, root: Option<NodeId>, count: int, lo: nat, hi: nat,
      fields: seq<SortField>, docs: Docs, i: nat, j: nat, ns': Nodes)
    requires Sane(t, root, count, lo, hi, fields, docs, {}) && t.levels != [] && i < |t.levels[0]|
    requires LeafLoses(t.ns, ns', t.levels[0][i], j)
    ensures Thin(t.(ns := ns'), root, count, lo, hi, 0, t.levels[0][i], {})
  {
    var u := t.levels[0][i];
    LeafEdit(t, root, i, ns');
    var t' := t.(ns := ns');
    EditedSized(t, t', root, lo, hi, u);
    assert OnLevel(t, 0, u) && u in t.levels[0] && SizeOk(t.ns, root, lo, hi, u);
  }

  /** A leaf without one of its documents: all that is known before the tree is balanced. */
  lemma {:induction false} RemovedFromLeaf(t: Shape, root: Option<NodeId>, count: int, lo: nat, hi: nat,
      fields: seq<SortField>, docs: Docs,
      i: nat, m: nat, j: nat, x: NodeId, key: DocId, ns': Nodes)
    requires Sane(t, root, count, lo, hi, fields, docs, {}) && Sorted(fields, docs, Contents(t.ns, t.levels))
    requires LeafAt(t, i, m) && t.levels != [] && i < |t.levels[0]| && t.levels[0][i] == x
    requires LeafLoses(t.ns, ns', x, j) && t.ns[x].ids[j] == key
    ensures Thin(t.(ns := ns'), root, count, lo, hi, 0, x, {}) && Keyed(t.(ns := ns'), fields, docs - {key}, {x})
    ensures j > 0 ==> LeafFirst(ns', t.first, fields, docs - {key}, x)
    ensures m + j < |Contents(t.ns, t.levels)| && Contents(t.ns, t.levels)[m + j] == key
    ensures Contents(ns', t.levels) == Contents(t.ns, t.levels)[..m + j] + Contents(t.ns, t.levels)[m + j + 1..]
    ensures key !in Contents(ns', t.levels) && Sorted(fields, docs - {key}, Contents(ns', t.levels))
  {
    assert Tree(t, root) && Keyed(t, fields, docs, {}) && OnLevel(t, 0, x)
      && m == |Gather(IdRow(t.ns), t.levels[0][..i])|;
    assert Ids(t.ns, x) == t.ns[x].ids && m + j < |Contents(t.ns, t.levels)| && Contents(t.ns, t.levels)[m + j] == key;
    hide *;
    LeafRemoveOrder(t, root, fields, docs, i, m, j, key, ns');
    LeafRemove(t, root, count, lo, hi, fields, docs, i, j, ns');
    LeafRemoveKeys(t, root, fields, docs, x, j, ns');
  }
}
