/** What remains to be said of the leaves when one of them, x, borrows or merges: their
    smallest keys, and the records left over afterwards. */
module LeafBalance {
  import opened Lists
  import opened SortOrder
  import opened Layout
  import opened Regroup
  import opened Steps
  import opened Repair
  import opened TreeInvariant
  import opened Removal
  import opened Shrinking
  import opened Upkeep

  /** Between the structural step and the repair of separators: only z's smallest key may be out of date. */
  ghost predicate Unsettled(t: Shape, root: Option<NodeId>, count: int, lo: nat, hi: nat, fields: seq<SortField>,
      docs: Docs,
      z: NodeId, zi: nat, live: bool)
  {
    && Whole(t, root, count, lo, hi, {}) && Keyed(t, fields, docs, {z})
    && (live <==> OnLevel(t, 0, z))
    && (live ==> Ids(t.ns, z) != [])
    && (live && zi > 0 ==> LeafFirst(t.ns, t.first, fields, docs, z))
  }

  /** The keys of the leaves after l and r exchanged or pooled documents. */
  lemma {:induction false} ExchangedKeys(t: Shape, t': Shape, root: Option<NodeId>, fields: seq<SortField>, docs: Docs,
      x: NodeId, l: NodeId, r: NodeId, q: NodeId, except: set<NodeId>)
    requires Keyed(t, fields, docs, {x}) && Elsewhere(t, t', {l, r, q}) && (x == l || x == r)
    requires Tree(t', root) && OnLevel(t', 1, q)
    requires OnLevel(t', 0, l) && l !in except ==> LeafFirst(t'.ns, t'.first, fields, docs, l)
    requires OnLevel(t', 0, r) && r !in except ==> LeafFirst(t'.ns, t'.first, fields, docs, r)
    ensures Keyed(t', fields, docs, except)
  {
    if OnLevel(t', 0, q) { LevelsApart(t', root, 0, q, 1, q); }
    KeyedElsewhere(t, t', fields, docs, {x}, except, {l, r, q});
  }

  lemma {:induction false} KeyOfLeaf(t: Shape, fields: seq<SortField>, docs: Docs, except: set<NodeId>, u: NodeId)
    requires Keyed(t, fields, docs, except) && OnLevel(t, 0, u) && u !in except
    ensures LeafFirst(t.ns, t.first, fields, docs, u)
  {
  }

  /** After a leaf was merged away, and the levels above put in order, its record goes
      and its former parent's is written once more. */
  lemma {:induction false} Cleanup(t: Shape, root: Option<NodeId>, count: int, lo: nat, hi: nat, x: NodeId, q: NodeId,
      p: Node, ns': Nodes)
    requires Whole(t, root, count, lo, hi, {x}) && !OnLevel(t, 0, x)
    requires x in t.height && t.height[x] == 0 && q in t.height && t.height[q] == 1 && x != q && 0 < q <= count
    requires p.Inner? && (OnLevel(t, 1, q) ==> q in t.ns && t.ns[q] == p)
    requires ns' == (t.ns - {x})[q := p]
    ensures Whole(t.(ns := ns'), root, count, lo, hi, {}) && Contents(ns', t.levels) == Contents(t.ns, t.levels)
    ensures t.levels != [] ==> LeavesKept(t, t.(ns := ns'))
  {
    forall e: nat, u | OnLevel(t, e, u) && u in t.ns ensures u in ns' && ns'[u] == t.ns[u] { KidsOf(t, root, e, u); }
    LeftOver(t, root, lo, hi, ns');
    CleanupTidy(t, count, x, q, p, ns');
  }

  lemma {:induction false} CleanupTidy(t: Shape, count: int, x: NodeId, q: NodeId, p: Node, ns': Nodes)
    requires Tidy(t, count, {x}) && p.Inner? && 0 < q <= count && ns' == (t.ns - {x})[q := p]
    ensures Tidy(t.(ns := ns'), count, {})
  {
    forall u | u in ns'
        ensures 0 <= u <= count && (u == 0 ==> ns'[u].Leaf?) && (ns'[u].Leaf? ==> OnLevel(t.(ns := ns'), 0, u)) {
      if u != q {
        assert u in t.ns && ns'[u] == t.ns[u];
        assert t.ns[u].Leaf? ==> OnLevel(t, 0, u);
      }
    }
  }

  /** The former parent does not list the leaf that was merged away. */
  lemma {:induction false} NotListed(t0: Shape, root0: Option<NodeId>, t: Shape, root: Option<NodeId>, x: NodeId,
      l: NodeId, r: NodeId, q: NodeId, k: nat, dead: nat, p: Node)
    requires Adjacent(t0, root0, 0, l, r, q, k) && (if dead == k then x == l else x == r && dead == k + 1)
    requires Tree(t, root) && !OnLevel(t, 0, x) && p.Inner?
    requires if OnLevel(t, 1, q) then q in t.ns && t.ns[q] == p else p == Unlisted(t0.ns[q], k, dead)
    ensures x !in p.children
  {
    if OnLevel(t, 1, q) {
      KidsBelow(t, root, 1, q);
      assert x !in Kids(t.ns, q);
    } else {
      KidsBelow(t0, root0, 1, q);
      var ks := Kids(t0.ns, q);
      assert ks == ks[..dead] + [ks[dead]] + ks[dead + 1..];
      NoDupParts(ks[..dead], [ks[dead]], ks[dead + 1..]);
      assert x in [ks[dead]];
    }
  }

  /** The last document is gone. */
  lemma {:induction false} EmptyTree(t: Shape, count: int, lo: nat, hi: nat, x: NodeId, ns': Nodes)
    requires Thin(t, Some(x), count, lo, hi, 0, x, {}) && t.ns[x].Leaf? && t.ns[x].ids == [] && ns' == t.ns - {x}
    ensures Whole(Shape(ns', [], t.first, t.height), None, count, lo, hi, {}) && Contents(t.ns, t.levels) == []
    ensures t.ns[x].next.None?
  {
    TopIsRoot(t, Some(x), 0, x);
    assert t.levels == [[x]];
    assert LevelAt(t, 0) && LinkedAt(t.ns, t.levels[0], 0);
    GatherOne(IdRow(t.ns), x);
    forall u | u in ns' ensures 0 <= u <= count && (u == 0 ==> ns'[u].Leaf?) && !ns'[u].Leaf? {
      assert u in t.ns;
      assert t.ns[u].Leaf? ==> OnLevel(t, 0, u);
    }
  }

  /** After the repair. */
  lemma {:induction false} Settled(t: Shape, t1: Shape, t': Shape, root: Option<NodeId>, count: int, lo: nat, hi: nat,
      fields: seq<SortField>, docs: Docs,
      z: NodeId, zi: nat, live: bool)
    requires Unsettled(t, root, count, lo, hi, fields, docs, z, zi, live)
    requires if live && zi == 0 then
      Ids(t.ns, z) != [] && t1 == t.(first := t.first[z := KeyOf(fields, docs, Ids(t.ns, z)[0])]) else t1 == t
    requires Tree(t', root) && Respelled(t.ns, t'.ns) && t'.levels == t.levels && t'.height == t.height
    requires FirstsKept(t1, t')
    ensures Sane(t', root, count, lo, hi, fields, docs, {}) && Contents(t'.ns, t'.levels) == Contents(t.ns, t.levels)
  {
    RespelledKeeps(t, t', root, count, lo, hi, {});
    if t.levels != [] {
      assert LevelAt(t, 0);
      forall u | u in t.levels[0] && u != z ensures SameFirst(t.first, t'.first, u) {
        assert InPlace(t.ns, t.first, t.height, 0, u) && SameFirst(t1.first, t'.first, u);
      }
      if OnLevel(t, 0, z) {
        assert InPlace(t.ns, t.first, t.height, 0, z) && SameFirst(t1.first, t'.first, z) && Respelt(t.ns[z], t'.ns[z]);
      }
      RespelledKeys(t, t', fields, docs, z);
    }
  }

  lemma {:induction false} AdjacentHeights(t: Shape, root: Option<NodeId>, count: int, lo: nat, hi: nat, d: nat,
      x: NodeId, odd: set<NodeId>,
      l: NodeId, r: NodeId, q: NodeId, k: nat)
    requires Thin(t, root, count, lo, hi, d, x, odd) && Adjacent(t, root, d, l, r, q, k)
    ensures l in t.height && t.height[l] == d && r in t.height && t.height[r] == d && q in t.height
    ensures t.height[q] == d + 1 && 0 < q <= count
  {
    KidsOf(t, root, d, l);
    KidsOf(t, root, d, r);
    KidsOf(t, root, d + 1, q);
  }

  /** The next leaf after one that is merged into its left sibling stays. */
  lemma {:induction false} NextStays(t: Shape, t': Shape, root: Option<NodeId>, l: NodeId, r: NodeId, q: NodeId, k: nat)
    requires Adjacent(t, root, 0, l, r, q, k) && Covers(t, t', {l, r}) && t.ns[r].next.Some?
    ensures OnLevel(t', 0, t.ns[r].next.value)
  {
    SiblingLinks(t, root, 0, l, r, q, k);
    var v := t.ns[r].next.value;
    assert v in t.levels[0];
  }

  lemma {:induction false} KeptLeaf(t: Shape, t': Shape, fields: seq<SortField>, docs: Docs, u: NodeId)
    requires LeavesKept(t, t') && OnLevel(t, 0, u) && Keyed(t', fields, docs, {})
    ensures OnLevel(t', 0, u) && u in t'.ns && t'.ns[u].Leaf? && t'.ns[u].ids != []
  {
    assert LeafFirst(t'.ns, t'.first, fields, docs, u);
  }
}
