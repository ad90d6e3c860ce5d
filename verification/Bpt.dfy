/** The B+ tree of core/src/bpt.js. */
module Bpt {
  import opened Lists
  import opened SortOrder
  import opened Layout
  import opened Regroup
  import opened Steps
  import opened Siblings
  import opened Repair
  import opened TreeInvariant
  import opened Descent
  import opened LeafOrder
  import opened Removal
  import opened Shrinking
  import opened Upkeep
  import opened LeafBalance
  import opened Ranges

  type Order = n: nat | n >= 3 witness 3

  class BPT {
    const order: Order
    const fields: seq<SortField>

    // the records kept under the prefix of the index
    var nodes: Nodes
    var root: Option<NodeId>
    var count: int

    // the tree those records form
    ghost var tree: Shape

    function MaxVals(): nat { order - 1 }

    function MinVals(): nat { (order + 1) / 2 - 1 }

    /** The documents of the index, in order. */
    ghost function Entries(): seq<DocId>
      reads this
    {
      Contents(nodes, tree.levels)
    }

    /** A well-formed tree, up to the sizes of the nodes in `odd`. */
    ghost predicate Sane(docs: Docs, odd: set<NodeId>)
      reads this
    {
      tree.ns == nodes && TreeInvariant.Sane(tree, root, count, MinVals(), MaxVals(), fields, docs, odd)
    }

    ghost predicate Valid(docs: Docs)
      reads this
    {
      Sane(docs, {}) && Sorted(fields, docs, Entries())
    }

    constructor (order: Order, fields: seq<SortField>)
      ensures this.order == order && this.fields == fields
      ensures forall docs :: Valid(docs)
      ensures Entries() == []
    {
      this.order, this.fields := order, fields;
      nodes, root, count := map[], None, -1;
      tree := Shape(map[], [], map[], map[]);
    }

    method NextId() returns (id: NodeId)
      modifies this`count
      ensures id == count == old(count) + 1
    {
      count := count + 1;
      id := count;
    }

    /** Tells every node of kids that p is its parent. */
    method SetParent(kids: seq<NodeId>, p: NodeId)
      requires forall i :: 0 <= i < |kids| ==> kids[i] in nodes
      modifies this`nodes
      ensures nodes.Keys == old(nodes).Keys
      ensures forall u {:trigger nodes[u]} :: u in nodes ==>
        nodes[u] == if u in kids then old(nodes)[u].(parent := Some(p)) else old(nodes)[u]
    {
      for i := 0 to |kids|
        invariant nodes.Keys == old(nodes).Keys
        invariant forall u {:trigger nodes[u]} :: u in nodes ==>
          nodes[u] == if u in kids[..i] then old(nodes)[u].(parent := Some(p)) else old(nodes)[u]
      {
        nodes := nodes[kids[i] := nodes[kids[i]].(parent := Some(p))];
        assert kids[..i + 1] == kids[..i] + [kids[i]];
      }
      assert kids[..|kids|] == kids;
    }

    // ----- finding a leaf

    /** Descends to the leaf where the bound would stand; the first leaf without a bound. */
    method SearchFrom(bound: Option<SortKey>, after: bool, u: NodeId, ghost d: nat, ghost j: nat)
        returns (leaf: NodeId, ghost i: nat)
      requires tree.ns == nodes && Tree(tree, root)
      requires d < |tree.levels| && j < |tree.levels[d]| && tree.levels[d][j] == u
      requires if bound.Some? then Between(tree, fields, bound.value, after, d, j) else j == 0
      ensures tree.levels != [] && i < |tree.levels[0]| && tree.levels[0][i] == leaf
      ensures if bound.Some? then Between(tree, fields, bound.value, after, 0, i) else i == 0
      decreases d
    {
      KidsOf(tree, root, d, u);
      var node := nodes[u];
      if node.Leaf? { return u, j; }
      var k := 0;
      while k < |node.vals| && bound.Some? && Comp(fields, bound.value, node.vals[k], after) != 1
        invariant k <= |node.vals|
        invariant bound.None? ==> k == 0
        invariant bound.Some? && k > 0 ==> Comp(fields, bound.value, node.vals[k - 1], after) <= 0
      {
        k := k + 1;
      }
      ghost var m := 0;
      if bound.Some? {
        m := BetweenBelow(tree, root, fields, bound.value, after, d - 1, j, k);
      } else {
        m := ChildAt(tree, root, d - 1, j, 0);
      }
      leaf, i := SearchFrom(bound, after, node.children[k], d - 1, m);
    }

    method Search(bound: Option<SortKey>, after: bool) returns (leaf: Option<NodeId>, ghost i: nat)
      requires tree.ns == nodes && Tree(tree, root) && Tidy(tree, count, {})
      ensures leaf.None? <==> tree.levels == []
      ensures leaf.Some? ==> i < |tree.levels[0]| && tree.levels[0][i] == leaf.value
      ensures leaf.Some? ==> if bound.Some? then Between(tree, fields, bound.value, after, 0, i) else i == 0
    {
      var start := if root.Some? then root.value else 0;
      i := 0;
      if start !in nodes { return None, 0; }
      var top := |tree.levels| - 1;
      assert tree.levels[top][0] == start;
      var u;
      u, i := SearchFrom(bound, after, start, top, 0);
      leaf := Some(u);
    }

    /** The same from the right; without a bound, the last leaf. */
    method RSearchFrom(bound: Option<SortKey>, after: bool, u: NodeId, ghost d: nat, ghost j: nat)
        returns (leaf: NodeId, ghost i: nat)
      requires tree.ns == nodes && Tree(tree, root)
      requires d < |tree.levels| && j < |tree.levels[d]| && tree.levels[d][j] == u
      requires if bound.Some? then Between(tree, fields, bound.value, !after, d, j) else j + 1 == |tree.levels[d]|
      ensures tree.levels != [] && i < |tree.levels[0]| && tree.levels[0][i] == leaf
      ensures if bound.Some? then Between(tree, fields, bound.value, !after, 0, i) else i + 1 == |tree.levels[0]|
      decreases d
    {
      KidsOf(tree, root, d, u);
      var node := nodes[u];
      if node.Leaf? { return u, j; }
      var k: nat := |node.vals|;
      while k > 0 && bound.Some? && Comp(fields, bound.value, node.vals[k - 1], !after) > 0
        invariant k <= |node.vals|
        invariant bound.None? ==> k == |node.vals|
        invariant bound.Some? && k < |node.vals| ==> Comp(fields, bound.value, node.vals[k], !after) == 1
      {
        k := k - 1;
      }
      ghost var m := 0;
      if bound.Some? {
        m := BetweenBelow(tree, root, fields, bound.value, !after, d - 1, j, k);
      } else {
        m := ChildAt(tree, root, d - 1, j, k);
        NextStartsAt(tree, root, d - 1, j, m);
        m := m + k;
      }
      leaf, i := RSearchFrom(bound, after, node.children[k], d - 1, m);
    }

    method RSearch(bound: Option<SortKey>, after: bool) returns (leaf: Option<NodeId>, ghost i: nat)
      requires tree.ns == nodes && Tree(tree, root) && Tidy(tree, count, {})
      ensures leaf.None? <==> tree.levels == []
      ensures leaf.Some? ==> i < |tree.levels[0]| && tree.levels[0][i] == leaf.value
      ensures leaf.Some? ==>
        if bound.Some? then Between(tree, fields, bound.value, !after, 0, i) else i + 1 == |tree.levels[0]|
    {
      var start := if root.Some? then root.value else 0;
      i := 0;
      if start !in nodes { return None, 0; }
      var top := |tree.levels| - 1;
      assert tree.levels[top][0] == start;
      var u;
      u, i := RSearchFrom(bound, after, start, top, 0);
      leaf := Some(u);
    }

    // ----- splitting a node

    /** The halves of a node; the right one comes after x. */
    method Halve(docs: Docs, x: NodeId, node: Node) returns (left: Node, right: Node, top: SortKey)
      requires Size(node) == order && (node.Inner? ==> |node.children| == order + 1)
      ensures Halves(node, left, right, top) && (left.Inner? <==> node.Inner?) && (right.Inner? <==> node.Inner?)
      ensures left.Leaf? ==> left.ids != [] && right.ids != [] && top == KeyOf(fields, docs, right.ids[0])
      ensures right.Inner? ==> exists h: nat :: h <= |node.children| && right.children == node.children[h..]
      ensures left.parent == node.parent && left.prev == node.prev && left.next == node.next
      ensures right.parent == None && right.prev == Some(x) && right.next == node.next
      ensures MinVals() <= Size(left) <= MaxVals() && MinVals() <= Size(right) <= MaxVals()
    {
      var h := (order + 1) / 2;
      if node.Leaf? {
        left := node.(ids := node.ids[..h]);
        right := Leaf(node.ids[h..], None, Some(x), node.next);
        top := KeyOf(fields, docs, node.ids[h]);
      } else {
        left := node.(vals := node.vals[..h - 1], children := node.children[..h]);
        right := Inner(node.vals[h..], node.children[h..], None, Some(x), node.next);
        top := node.vals[h - 1];
      }
    }

    /** Tells the neighbour z that y comes before it now, and the children moved that y is their parent. */
    method Announce(y: NodeId, z: Option<NodeId>, moved: seq<NodeId>)
      requires z.Some? ==> z.value in nodes
      requires forall i :: 0 <= i < |moved| ==> moved[i] in nodes
      modifies this`nodes
      ensures nodes.Keys == old(nodes).Keys
      ensures forall u {:trigger nodes[u]} :: u in nodes ==> nodes[u] == Ready(old(nodes)[u], u, z, y, moved)
    {
      if z.Some? {
        nodes := nodes[z.value := nodes[z.value].(prev := Some(y))];
      }
      SetParent(moved, y);
    }

    /** Cuts x in two. Its chain neighbour and the children of the right half are told
        about the new node y; the halves themselves are not stored yet. */
    method SplitNode(docs: Docs, x: NodeId) returns (y: NodeId, left: Node, right: Node, top: SortKey)
      requires x in nodes && Size(nodes[x]) == order
      requires nodes[x].Inner? ==> |nodes[x].children| == order + 1
      requires nodes[x].next.Some? ==> nodes[x].next.value in nodes
      requires forall i {:trigger Kids(nodes, x)[i]} :: 0 <= i < |Kids(nodes, x)| ==> Kids(nodes, x)[i] in nodes
      modifies this`nodes, this`count
      ensures y == count == old(count) + 1
      ensures nodes.Keys == old(nodes).Keys
      ensures forall u {:trigger nodes[u]} :: u in nodes ==>
        nodes[u] == Ready(old(nodes)[u], u, old(nodes)[x].next, y, if right.Inner? then right.children else [])
      ensures Halves(old(nodes)[x], left, right, top)
      ensures left.Leaf? ==> left.ids != [] && right.ids != [] && top == KeyOf(fields, docs, right.ids[0])
      ensures left.parent == old(nodes)[x].parent && left.prev == old(nodes)[x].prev && left.next == Some(y)
      ensures right.prev == Some(x) && right.next == old(nodes)[x].next
      ensures MinVals() <= Size(left) <= MaxVals() && MinVals() <= Size(right) <= MaxVals()
    {
      hide KeyOf, Ready;
      var node := nodes[x];
      y := NextId();
      left, right, top := Halve(docs, x, node);
      if right.Inner? {
        ghost var h: nat :| h <= |node.children| && right.children == node.children[h..];
        forall i | 0 <= i < |right.children| ensures right.children[i] in nodes {
          assert right.children[i] == Kids(nodes, x)[h + i];
        }
      }
      Announce(y, node.next, if right.Inner? then right.children else []);
      left := left.(next := Some(y));
    }

    /** The parent of x with y listed right after it; a new parent if x is the root. */
    method ParentFor(x: NodeId, y: NodeId, top: SortKey, parent: Option<NodeId>)
        returns (isNew: bool, q: NodeId, p: Node)
      requires parent.Some? ==>
        && parent.value in nodes && nodes[parent.value].Inner? && x in nodes[parent.value].children
        && |nodes[parent.value].children| == |nodes[parent.value].vals| + 1
      modifies this`count
      ensures isNew == parent.None?
      ensures isNew ==> q == count == old(count) + 1 && p == Inner([top], [x, y], None, None, None)
      ensures !isNew ==>
        q == parent.value && count == old(count) && p == WithChild(nodes[q], IndexOf(x, nodes[q].children), x, y, top)
    {
      isNew := parent.None?;
      if isNew {
        q := NextId();
        p := Inner([top], [x, y], None, None, None);
      } else {
        q := parent.value;
        p := nodes[q];
        var k := IndexOf(x, p.children);
        p := p.(vals := p.vals[..k] + [top] + p.vals[k..], children := p.children[..k + 1] + [y] + p.children[k + 1..]);
        assert p.children == nodes[q].children[..k] + [x, y] + nodes[q].children[k + 1..];
      }
    }

    /** Writes the records of a split. */
    method WriteSplit(docs: Docs, x: NodeId)
        returns (q: NodeId, ghost y: NodeId, ghost p: Node, ghost top: SortKey, ghost l: Node, ghost r: Node,
            ghost ns1: Nodes)
      requires WellLinked(nodes, x) && Size(nodes[x]) == order
      modifies this`nodes, this`root, this`count
      ensures SplitRecords(old(nodes), old(root), root, old(count), count, MinVals(), MaxVals(), fields, docs, x, y, q,
        p, top, l, r, ns1, nodes)
    {
      ghost var ns := nodes;
      var parent := nodes[x].parent;
      var y', left, right, top' := SplitNode(docs, x);
      y, top, l, r, ns1 := y', top', left, right, nodes;
      assert Cut(ns, ns1, MinVals(), MaxVals(), x, y, top, l, r, fields, docs);
      var isNew, p';
      isNew, q, p' := ParentFor(x, y', top', parent);
      p := p';
      nodes := nodes[y' := right.(parent := Some(q))];
      nodes := nodes[q := p'];
      nodes := nodes[x := left.(parent := Some(q))];
      if isNew { root := Some(q); }
    }

    /** Splits x and tells its parent q, which may now hold one entry too many. */
    method SplitOnce(docs: Docs, x: NodeId, ghost d: nat) returns (q: NodeId)
      requires Sane(docs, {x}) && OnLevel(tree, d, x) && x in nodes && Size(nodes[x]) == order
      modifies this`nodes, this`root, this`count, this`tree
      ensures Sane(docs, {q}) && Entries() == old(Entries()) && OnLevel(tree, d + 1, q) && q in nodes
      ensures SizeOk(nodes, root, MinVals(), order, q)
      ensures Size(nodes[q]) == 1 || (|tree.levels| == |old(tree).levels| && d + 1 < |tree.levels|)
    {
      ghost var t0, root0, count0 := tree, root, count;
      NodeIsWellLinked(t0, root, d, x);
      ghost var y, p, top, l, r, ns1;
      q, y, p, top, l, r, ns1 := WriteSplit(docs, x);
      tree := SplitWhole(t0, root0, root, count0, count, MinVals(), MaxVals(), fields, docs, d, x, y, q, p, top, l, r,
          ns1, nodes);
    }

    method Split(docs: Docs, x: NodeId, ghost d: nat)
      requires Sane(docs, {x}) && OnLevel(tree, d, x) && x in nodes && Size(nodes[x]) == order
      modifies this`nodes, this`root, this`count, this`tree
      ensures Sane(docs, {}) && Entries() == old(Entries())
      decreases |tree.levels| - d
    {
      var q := SplitOnce(docs, x, d);
      if Size(nodes[q]) > MaxVals() { Split(docs, q, d + 1); }
    }

    // ----- inserting a document

    /** The first leaf, holding key alone. */
    method Init(docs: Docs, key: DocId)
      requires Sane(docs, {}) && root.None? && key in docs && Full(KeyOf(fields, docs, key))
      modifies this`nodes, this`root, this`count, this`tree
      ensures Valid(docs) && Entries() == [key]
    {
      FirstLeafIsSane(tree, count, MinVals(), MaxVals(), fields, docs, key);
      tree := FirstLeaf(tree, count + 1, key, KeyOf(fields, docs, key));
      var id := NextId();
      nodes := nodes[id := Leaf([key], None, None, None)];
      root := Some(id);
    }

    /** The ids of a leaf with key put before the first document that does not come before it. */
    method PutIn(docs: Docs, key: DocId, ids: seq<DocId>) returns (ids': seq<DocId>, ghost k: nat)
      ensures BelongsAt(fields, docs, key, ids, k) && ids' == Inserted(ids, k, key)
    {
      var index := 0;
      while index < |ids|
        invariant index <= |ids|
        invariant forall j {:trigger ids[j]} :: 0 <= j < index ==>
          Comp(fields, KeyOf(fields, docs, key), KeyOf(fields, docs, ids[j]), false) < 0
      {
        if Comp(fields, KeyOf(fields, docs, key), KeyOf(fields, docs, ids[index]), false) >= 0 {
          return ids[..index] + [key] + ids[index..], index;
        }
        index := index + 1;
      }
      ids' := ids + [key];
      k := |ids|;
      assert ids[..k] == ids && ids[k..] == [];
    }

    /** Stores a document and adds it to the index; a missing value changes nothing. */
    method Insert(docs: Docs, key: DocId, val: Option<Doc>) returns (docs': Docs)
      requires Valid(docs) && EndsWithId(fields)
      requires val.Some? ==> key !in Entries() && Full(Pick(fields, Some(key), val.value))
      modifies this`nodes, this`root, this`count, this`tree
      ensures val.None? ==>
        docs' == docs && nodes == old(nodes) && root == old(root) && count == old(count) && tree == old(tree)
      ensures val.Some? ==> docs' == docs[key := val.value]
      ensures Valid(docs')
      ensures val.Some? ==> exists p: nat :: p <= |old(Entries())| && Entries() == Inserted(old(Entries()), p, key)
    {
      if val.None? { return docs; }
      docs' := docs[key := val.value];
      OtherDocument(tree, root, count, MinVals(), MaxVals(), fields, docs, docs', key);
      var leaf, i := Search(Some(KeyOf(fields, docs', key)), false);
      if leaf.None? {
        assert Entries() == [];
        Init(docs', key);
        assert Entries() == Inserted([], 0, key);
      } else {
        var u := leaf.value;
        KidsOf(tree, root, 0, u);
        var ids', k := PutIn(docs', key, nodes[u].ids);
        ghost var t := tree;
        ghost var p := LeafInsertOrder(t, root, fields, docs', key, i, k, t.ns[u := t.ns[u].(ids := ids')]);
        nodes := nodes[u := nodes[u].(ids := ids')];
        tree := LeafInsert(t, root, count, MinVals(), MaxVals(), fields, docs', key, i, k, nodes);
        if Size(nodes[u]) > MaxVals() { Split(docs', u, 0); }
        assert Entries() == Inserted(old(Entries()), p, key);
      }
    }

    // ----- keeping separators in step

    /** What an update of separators leaves alone. */
    twostate predicate Updated()
      reads this
    {
      && tree.ns == nodes && tree.levels == old(tree).levels && tree.height == old(tree).height
      && Respelled(old(nodes), nodes)
      && FirstsKept(old(tree), tree)
    }

    /** Makes the separator that names n's smallest key name its first document. For a node
        that was merged away nothing is found to update. */
    method UpdateIndexes(docs: Docs, index: nat, n: NodeId, node: Node, val: Option<SortKey>, ghost d: nat,
        ghost F: Firsts, ghost live: bool)
      requires tree.ns == nodes
      requires if live && index == 0 then Half(tree, root, F, d, n) else Tree(tree, root)
      requires live ==> n in nodes && nodes[n] == node && n in tree.first
      requires node.Inner? ==> live && val == Some(tree.first[n])
      requires node.Leaf? && live && index == 0 ==> node.ids != [] && tree.first[n] == KeyOf(fields, docs, node.ids[0])
      requires !live && node.parent.Some? && node.parent.value in nodes ==>
        nodes[node.parent.value].Inner? && n !in nodes[node.parent.value].children
      requires !live && node.next.Some? ==>
        node.next.value in nodes && nodes[node.next.value].Leaf? && nodes[node.next.value].ids != []
      modifies this`nodes, this`tree
      ensures Tree(tree, root) && Updated()
      ensures !live ==> nodes == old(nodes) && tree == old(tree)
      decreases |tree.levels| - d
    {
      if live && index == 0 { HalfParent(tree, root, F, d, n); }
      assert LevelAt(tree, 0);
      if index == 0 && node.parent.Some? {
        var q := node.parent.value;
        if q !in nodes { return; }
        var parent := nodes[q];
        var k := IndexOf(n, parent.children);
        var v := val;
        if node.Leaf? {
          if node.ids != [] {
            v := Some(KeyOf(fields, docs, node.ids[0]));
          } else if node.next.Some? {
            v := Some(KeyOf(fields, docs, nodes[node.next.value].ids[0]));
          } else {
            return;
          }
        }
        if k > 0 {
          ghost var t := tree;
          nodes := nodes[q := parent.(vals := parent.vals[k - 1 := v.value])];
          RepairSeparator(t, root, F, d, n, q, k, nodes);
          tree := t.(ns := nodes);
        } else if k == 0 {
          StepUp(tree, root, F, d, n, q);
          ghost var t := tree;
          tree := t.(first := t.first[q := t.first[n]]);
          ghost var t1 := tree;
          UpdateIndexes(docs, 0, q, nodes[q], v, d + 1, F, true);
          FirstsKeptTwice(t, t1, tree);
        }
      } else if live && index == 0 {
        RepairTop(tree, root, F, d, n);
      }
    }

    // ----- an inner node is one entry short

    /** x takes over the last child of its left sibling. */
    method InnerFromPrev(x: NodeId, node: Node, y: NodeId, q: NodeId, k: nat, ghost t: Shape, ghost d: nat,
        ghost odd: set<NodeId>) returns (node': Node)
      requires x in nodes && t.ns == nodes[x := node] && Thin(t, root, count, MinVals(), MaxVals(), d, x, odd) && d > 0
      requires Adjacent(t, root, d, y, x, q, k) && Size(node) < MinVals() && Size(t.ns[y]) > MinVals()
      modifies this`nodes, this`tree
      ensures tree.ns == nodes && Whole(tree, root, count, MinVals(), MaxVals(), odd)
      ensures Contents(nodes, tree.levels) == Contents(t.ns, t.levels)
      ensures tree.levels == t.levels && tree.height == t.height && LeavesKept(t, tree) && x in nodes
      ensures nodes[x] == node' && node'.Inner?
    {
      SiblingSize(t, root, count, MinVals(), MaxVals(), d, x, odd, y, x, q, k, y);
      MergeApart(t, root, d, y, x, q, k);
      var prev, parent := nodes[y], nodes[q];
      var c, sep := prev.children[|prev.children| - 1], prev.vals[|prev.vals| - 1];
      assert c in Kids(t.ns, y);
      node' := node.(vals := [parent.vals[k]] + node.vals, children := [c] + node.children);
      var prev' := prev.(vals := prev.vals[..|prev.vals| - 1], children := prev.children[..|prev.children| - 1]);
      var parent' := parent.(vals := parent.vals[k := sep]);
      tree := BorrowEffect(t, root, count, MinVals(), MaxVals(), d, x, odd, y, x, q, k, sep, prev', node', parent',
          Some(c), true);
      HighUp(t, tree, root, d, y, x, q);
      nodes := nodes[x := node'][y := prev'][q := parent'];
      assert nodes == t.ns[y := prev'][x := node'][q := parent'];
      nodes := nodes[c := nodes[c].(parent := Some(x))];
    }

    /** x takes over the first child of its right sibling. */
    method InnerFromNext(x: NodeId, node: Node, y: NodeId, q: NodeId, k: nat, ghost t: Shape, ghost d: nat,
        ghost odd: set<NodeId>) returns (node': Node)
      requires x in nodes && t.ns == nodes[x := node] && Thin(t, root, count, MinVals(), MaxVals(), d, x, odd) && d > 0
      requires Adjacent(t, root, d, x, y, q, k) && Size(node) < MinVals() && Size(t.ns[y]) > MinVals()
      modifies this`nodes, this`tree
      ensures tree.ns == nodes && Whole(tree, root, count, MinVals(), MaxVals(), odd)
      ensures Contents(nodes, tree.levels) == Contents(t.ns, t.levels)
      ensures tree.levels == t.levels && tree.height == t.height && LeavesKept(t, tree) && x in nodes
      ensures nodes[x] == node' && node'.Inner?
    {
      SiblingSize(t, root, count, MinVals(), MaxVals(), d, x, odd, x, y, q, k, y);
      MergeApart(t, root, d, x, y, q, k);
      var next, parent := nodes[y], nodes[q];
      var c, sep := next.children[0], next.vals[0];
      assert c in Kids(t.ns, y);
      node' := node.(vals := node.vals + [parent.vals[k]], children := node.children + [c]);
      var next' := next.(vals := next.vals[1..], children := next.children[1..]);
      var parent' := parent.(vals := parent.vals[k := sep]);
      tree := BorrowEffect(t, root, count, MinVals(), MaxVals(), d, x, odd, x, y, q, k, sep, node', next', parent',
          Some(c), false);
      HighUp(t, tree, root, d, x, y, q);
      nodes := nodes[x := node'][y := next'][q := parent'];
      assert nodes == t.ns[x := node'][y := next'][q := parent'];
      nodes := nodes[c := nodes[c].(parent := Some(x))];
    }

    /** The left sibling y takes over everything x holds; their parent is not told yet. */
    method InnerIntoPrev(x: NodeId, node: Node, y: NodeId, q: NodeId, k: nat, ghost ns: Nodes) returns (ghost m: Node)
      requires x in nodes && nodes[x].Inner? && ns == nodes[x := node] && node.Inner?
      requires Mergeable(ns, y, x, q, k)
      modifies this`nodes
      ensures q in nodes && nodes[q] == ns[q]
      ensures Merged(ns, nodes[q := Unlisted(nodes[q], k, k + 1)], y, x, m, q, k, true) && SameKinds(ns, nodes)
      ensures Size(m) == Size(ns[y]) + 1 + Size(node)
    {
      var prev, parent := nodes[y], nodes[q];
      assert node.children == Kids(ns, x) && q !in Kids(ns, x);
      forall i | 0 <= i < |node.children| ensures node.children[i] in nodes {
        var c := node.children[i];
        assert c in Kids(ns, x);
      }
      SetParent(node.children, y);
      prev := prev.(vals := prev.vals + [parent.vals[k]] + node.vals, children := prev.children + node.children,
          next := node.next);
      if node.next.Some? {
        nodes := nodes[node.next.value := nodes[node.next.value].(prev := node.prev)];
      }
      nodes := nodes[y := prev];
      m := prev;
    }

    /** The right sibling y takes over everything x holds; their parent is not told yet. */
    method InnerIntoNext(x: NodeId, node: Node, y: NodeId, q: NodeId, k: nat, ghost ns: Nodes) returns (ghost m: Node)
      requires x in nodes && nodes[x].Inner? && ns == nodes[x := node] && node.Inner?
      requires Mergeable(ns, x, y, q, k)
      modifies this`nodes
      ensures q in nodes && nodes[q] == ns[q]
      ensures Merged(ns, nodes[q := Unlisted(nodes[q], k, k)], x, y, m, q, k, false) && SameKinds(ns, nodes)
      ensures Size(m) == Size(ns[y]) + 1 + Size(node)
    {
      var next, parent := nodes[y], nodes[q];
      assert node.children == Kids(ns, x) && q !in Kids(ns, x);
      forall i | 0 <= i < |node.children| ensures node.children[i] in nodes {
        var c := node.children[i];
        assert c in Kids(ns, x);
      }
      SetParent(node.children, y);
      next := next.(vals := node.vals + [parent.vals[k]] + next.vals, children := node.children + next.children,
          prev := node.prev);
      if node.prev.Some? {
        nodes := nodes[node.prev.value := nodes[node.prev.value].(next := node.next)];
      }
      nodes := nodes[y := next];
      m := next;
    }

    /** The only child of an empty root becomes the root. */
    method DropRoot(x: NodeId, node: Node, ghost t: Shape, ghost d: nat, ghost odd: set<NodeId>)
      requires x in nodes && nodes[x].Inner? && t.ns == nodes[x := node]
      requires Thin(t, root, count, MinVals(), MaxVals(), d, x, odd) && d > 0
      requires node.parent.None? && node.Inner? && node.vals == []
      modifies this`nodes, this`root, this`tree
      ensures tree.ns == nodes && Whole(tree, root, count, MinVals(), MaxVals(), odd)
      ensures Contents(nodes, tree.levels) == Contents(t.ns, t.levels)
      ensures LeavesKept(t, tree) && |tree.levels| == d && tree.levels == t.levels[..d] && tree.height == t.height
    {
      NodeIsWellLinked(t, root, d, x);
      KidsOf(t, root, d, x);
      KidsBelow(t, root, d, x);
      var c := node.children[0];
      assert Kids(t.ns, x) == [c] && c in Kids(t.ns, x);
      nodes := nodes[c := nodes[c].(parent := None)];
      if root == Some(x) {
        root := Some(c);
        nodes := nodes - {x};
      }
      forall u | u in t.ns && u != x
        ensures u in nodes && SameBody(t.ns, nodes, u) && SameLinks(t.ns, nodes, u)
          && nodes[u].parent == if u == c then None else t.ns[u].parent {}
      ShrinkEffect(t, count, MinVals(), MaxVals(), d, x, c, odd, nodes);
      tree := Shrunk(t, nodes);
    }

    /** A tree again, with t's documents, and t's nodes below level d. */
    ghost predicate Restored(t: Shape, d: nat, odd: set<NodeId>)
      reads this
    {
      && tree.ns == nodes && Whole(tree, root, count, MinVals(), MaxVals(), odd)
      && Contents(nodes, tree.levels) == Contents(t.ns, t.levels)
      && LeavesKept(t, tree) && tree.height == t.height && d <= |tree.levels| && d <= |t.levels|
      && tree.levels[..d] == t.levels[..d]
    }

    method FoldInnerPrev(x: NodeId, node: Node, y: NodeId, q: NodeId, k: nat, ghost t: Shape, ghost d: nat,
        ghost odd: set<NodeId>) returns (ghost t': Shape)
      requires x in nodes && nodes[x].Inner? && t.ns == nodes[x := node]
      requires Thin(t, root, count, MinVals(), MaxVals(), d, x, odd) && d > 0
      requires Adjacent(t, root, d, y, x, q, k) && Size(t.ns[y]) <= MinVals() && Size(node) < MinVals()
      modifies this`nodes
      ensures q in nodes && nodes[q] == t.ns[q] && t'.ns == nodes[q := Unlisted(nodes[q], k, k + 1)]
      ensures Thin(t', root, count, MinVals(), MaxVals(), d + 1, q, odd)
      ensures Contents(t'.ns, t'.levels) == Contents(t.ns, t.levels)
      ensures |t'.levels| == |t.levels| && t'.levels[..d] == t.levels[..d] && LeavesKept(t, t') && !OnLevel(t', d, x)
      ensures t'.height == t.height
    {
      AdjacentMergeable(t, root, count, MinVals(), MaxVals(), d, x, odd, y, x, q, k);
      ghost var m := InnerIntoPrev(x, node, y, q, k, t.ns);
      t' := InnerMerge(t, root, count, MinVals(), MaxVals(), d, x, odd, y, x, q, k, m, true,
          nodes[q := Unlisted(nodes[q], k, k + 1)]);
    }

    method MergeInnerPrev(x: NodeId, node: Node, q: NodeId, index: nat, ghost t: Shape, ghost d: nat,
        ghost odd: set<NodeId>)
      requires x in nodes && nodes[x].Inner? && t.ns == nodes[x := node]
      requires Thin(t, root, count, MinVals(), MaxVals(), d, x, odd) && d > 0
      requires q in t.ns && t.ns[q].Inner? && 0 < index < |t.ns[q].children|
      requires Adjacent(t, root, d, t.ns[q].children[index - 1], x, q, index - 1)
      requires Size(t.ns[t.ns[q].children[index - 1]]) <= MinVals() && Size(node) < MinVals()
      modifies this`nodes, this`root, this`tree
      ensures Restored(t, d, odd) && !OnLevel(tree, d, x)
      decreases |t.levels| - d, 0
    {
      ghost var t' := FoldInnerPrev(x, node, nodes[q].children[index - 1], q, index - 1, t, d, odd);
      var _ := RmIndex(index - 1, index, q, t', d + 1, odd);
      KeptTwice(t, t', tree);
      LowerLevels(tree.levels, t'.levels, t.levels, d);
    }

    method FoldInnerNext(x: NodeId, node: Node, y: NodeId, q: NodeId, k: nat, ghost t: Shape, ghost d: nat,
        ghost odd: set<NodeId>) returns (ghost t': Shape)
      requires x in nodes && nodes[x].Inner? && t.ns == nodes[x := node]
      requires Thin(t, root, count, MinVals(), MaxVals(), d, x, odd) && d > 0
      requires Adjacent(t, root, d, x, y, q, k) && Size(t.ns[y]) <= MinVals() && Size(node) < MinVals()
      modifies this`nodes
      ensures q in nodes && nodes[q] == t.ns[q] && t'.ns == nodes[q := Unlisted(nodes[q], k, k)]
      ensures Thin(t', root, count, MinVals(), MaxVals(), d + 1, q, odd)
      ensures Contents(t'.ns, t'.levels) == Contents(t.ns, t.levels)
      ensures |t'.levels| == |t.levels| && t'.levels[..d] == t.levels[..d] && LeavesKept(t, t') && !OnLevel(t', d, x)
      ensures t'.height == t.height
    {
      AdjacentMergeable(t, root, count, MinVals(), MaxVals(), d, x, odd, x, y, q, k);
      ghost var m := InnerIntoNext(x, node, y, q, k, t.ns);
      t' := InnerMerge(t, root, count, MinVals(), MaxVals(), d, x, odd, x, y, q, k, m, false,
          nodes[q := Unlisted(nodes[q], k, k)]);
    }

    method MergeInnerNext(x: NodeId, node: Node, q: NodeId, index: nat, ghost t: Shape, ghost d: nat,
        ghost odd: set<NodeId>)
      requires x in nodes && nodes[x].Inner? && t.ns == nodes[x := node]
      requires Thin(t, root, count, MinVals(), MaxVals(), d, x, odd) && d > 0
      requires q in t.ns && t.ns[q].Inner? && index + 1 < |t.ns[q].children|
      requires Adjacent(t, root, d, x, t.ns[q].children[index + 1], q, index)
      requires Size(t.ns[t.ns[q].children[index + 1]]) <= MinVals() && Size(node) < MinVals()
      modifies this`nodes, this`root, this`tree
      ensures Restored(t, d, odd) && !OnLevel(tree, d, x)
      decreases |t.levels| - d, 0
    {
      ghost var t' := FoldInnerNext(x, node, nodes[q].children[index + 1], q, index, t, d, odd);
      var _ := RmIndex(index, index, q, t', d + 1, odd);
      KeptTwice(t, t', tree);
      LowerLevels(tree.levels, t'.levels, t.levels, d);
    }

    /** An inner node below the root that is one separator short borrows or merges. */
    method RefillInner(x: NodeId, node: Node, ghost t: Shape, ghost d: nat, ghost odd: set<NodeId>)
        returns (node': Node)
      requires x in nodes && nodes[x].Inner? && t.ns == nodes[x := node]
      requires Thin(t, root, count, MinVals(), MaxVals(), d, x, odd) && d > 0
      requires node.Inner? && node.parent.Some? && Size(node) < MinVals()
      modifies this`nodes, this`root, this`tree
      ensures Restored(t, d, odd) && node'.Inner? && (OnLevel(tree, d, x) ==> x in nodes && nodes[x] == node')
      ensures !OnLevel(tree, d, x) ==> node' == node
      decreases |t.levels| - d, 1
    {
      node' := node;
      var q := node.parent.value;
      HasSibling(t, root, count, MinVals(), MaxVals(), d, x, odd, q);
      var parent := nodes[q];
      var index := IndexOf(x, parent.children);
      var isPrev, isNext := index > 0, index + 1 < |parent.children|;
      if isPrev {
        SiblingSize(t, root, count, MinVals(), MaxVals(), d, x, odd, parent.children[index - 1], x, q, index - 1,
            parent.children[index - 1]);
      }
      if isNext {
        SiblingSize(t, root, count, MinVals(), MaxVals(), d, x, odd, x, parent.children[index + 1], q, index,
            parent.children[index + 1]);
      }
      if isPrev && !(|nodes[parent.children[index - 1]].vals| - 1 < MinVals()) {
        node' := InnerFromPrev(x, node, parent.children[index - 1], q, index - 1, t, d, odd);
      } else if isNext && !(|nodes[parent.children[index + 1]].vals| - 1 < MinVals()) {
        node' := InnerFromNext(x, node, parent.children[index + 1], q, index, t, d, odd);
      } else if isPrev && !(|nodes[parent.children[index - 1]].vals| + |node.vals| + 1 > MaxVals()) {
        MergeInnerPrev(x, node, q, index, t, d, odd);
      } else if isNext && !(|nodes[parent.children[index + 1]].vals| + |node.vals| + 1 > MaxVals()) {
        MergeInnerNext(x, node, q, index, t, d, odd);
      } else {
        assert false;
      }
    }

    /** Drops a separator and a child of x, and restores sizes from x upwards. The record
        the code ends up with for x is returned; x itself may have left the tree. */
    method RmIndex(vi: nat, ci: nat, x: NodeId, ghost t: Shape, ghost d: nat, ghost odd: set<NodeId>)
        returns (node: Node)
      requires x in nodes && nodes[x].Inner? && vi < |nodes[x].vals| && ci < |nodes[x].children|
      requires t.ns == nodes[x := Unlisted(nodes[x], vi, ci)] && Thin(t, root, count, MinVals(), MaxVals(), d, x, odd)
      requires d > 0
      modifies this`nodes, this`root, this`tree
      ensures Restored(t, d, odd) && node.Inner? && (OnLevel(tree, d, x) ==> x in nodes && nodes[x] == node)
      ensures !OnLevel(tree, d, x) ==> node == Unlisted(old(nodes)[x], vi, ci)
      decreases |t.levels| - d, 2
    {
      node := Unlisted(nodes[x], vi, ci);
      if |node.vals| == 0 || (node.parent.Some? && |node.vals| < MinVals()) {
        if node.parent.Some? {
          node := RefillInner(x, node, t, d, odd);
        } else {
          DropRoot(x, node, t, d, odd);
        }
      } else {
        NodeIsWellLinked(t, root, d, x);
        nodes := nodes[x := node];
        tree := t;
        KeptSelf(t, root);
      }
    }

    // ----- a leaf is short of documents

    /** Separators follow the smallest key of z, if that changed. */
    method Settle(docs: Docs, zi: nat, z: NodeId, node: Node, ghost live: bool)
      requires tree.ns == nodes && Unsettled(tree, root, count, MinVals(), MaxVals(), fields, docs, z, zi, live)
      requires node.Leaf? && (live ==> z in nodes && nodes[z] == node)
      requires !live && node.parent.Some? && node.parent.value in nodes ==>
        nodes[node.parent.value].Inner? && z !in nodes[node.parent.value].children
      requires !live && node.next.Some? ==>
        node.next.value in nodes && nodes[node.next.value].Leaf? && nodes[node.next.value].ids != []
      modifies this`nodes, this`tree
      ensures Sane(docs, {}) && Entries() == old(Entries())
    {
      ghost var t, F := tree, tree.first;
      if live { KidsOf(tree, root, 0, z); }
      if live && zi == 0 {
        HalfStarts(tree, root, z, KeyOf(fields, docs, node.ids[0]));
        tree := tree.(first := F[z := KeyOf(fields, docs, node.ids[0])]);
      }
      ghost var t1 := tree;
      UpdateIndexes(docs, zi, z, node, None, 0, F, live);
      Settled(t, t1, tree, root, count, MinVals(), MaxVals(), fields, docs, z, zi, live);
    }

    /** x takes over the last document of its left sibling. */
    method LeafFromPrev(docs: Docs, x: NodeId, y: NodeId, q: NodeId, k: nat, ghost zi: nat)
      requires tree.ns == nodes && Thin(tree, root, count, MinVals(), MaxVals(), 0, x, {})
      requires Keyed(tree, fields, docs, {x})
      requires Adjacent(tree, root, 0, y, x, q, k) && Size(nodes[x]) < MinVals() && Size(nodes[y]) > MinVals()
      modifies this`nodes, this`tree
      ensures tree.ns == nodes && Unsettled(tree, root, count, MinVals(), MaxVals(), fields, docs, x, zi, true)
      ensures Entries() == old(Entries())
      ensures x in nodes && nodes[x].Leaf?
    {
      ghost var t := tree;
      SiblingSize(t, root, count, MinVals(), MaxVals(), 0, x, {}, y, x, q, k, y);
      KeyOfLeaf(t, fields, docs, {x}, y);
      var node, prev, parent := nodes[x], nodes[y], nodes[q];
      var c := prev.ids[|prev.ids| - 1];
      var sep := KeyOf(fields, docs, c);
      node := node.(ids := [c] + node.ids);
      prev := prev.(ids := prev.ids[..|prev.ids| - 1]);
      parent := parent.(vals := parent.vals[k := sep]);
      nodes := nodes[y := prev][x := node][q := parent];
      tree := BorrowEffect(t, root, count, MinVals(), MaxVals(), 0, x, {}, y, x, q, k, sep, prev, node, parent, None,
          true);
      assert LeafFirst(tree.ns, tree.first, fields, docs, y) && LeafFirst(tree.ns, tree.first, fields, docs, x);
      ExchangedKeys(t, tree, root, fields, docs, x, y, x, q, {x});
    }

    /** x takes over the first document of its right sibling. */
    method LeafFromNext(docs: Docs, x: NodeId, y: NodeId, q: NodeId, k: nat, ghost zi: nat)
      requires tree.ns == nodes && Thin(tree, root, count, MinVals(), MaxVals(), 0, x, {})
      requires Keyed(tree, fields, docs, {x})
      requires zi > 0 ==> LeafFirst(nodes, tree.first, fields, docs, x)
      requires Adjacent(tree, root, 0, x, y, q, k) && Size(nodes[x]) < MinVals() && Size(nodes[y]) > MinVals()
      modifies this`nodes, this`tree
      ensures tree.ns == nodes && Unsettled(tree, root, count, MinVals(), MaxVals(), fields, docs, x, zi, true)
      ensures Entries() == old(Entries())
      ensures x in nodes && nodes[x].Leaf?
    {
      ghost var t := tree;
      SiblingSize(t, root, count, MinVals(), MaxVals(), 0, x, {}, x, y, q, k, y);
      var node, next, parent := nodes[x], nodes[y], nodes[q];
      node := node.(ids := node.ids + [next.ids[0]]);
      next := next.(ids := next.ids[1..]);
      var sep := KeyOf(fields, docs, next.ids[0]);
      parent := parent.(vals := parent.vals[k := sep]);
      nodes := nodes[x := node][y := next][q := parent];
      tree := BorrowEffect(t, root, count, MinVals(), MaxVals(), 0, x, {}, x, y, q, k, sep, node, next, parent, None,
          false);
      assert LeafFirst(tree.ns, tree.first, fields, docs, y);
      assert zi > 0 ==> LeafFirst(tree.ns, tree.first, fields, docs, x);
      ExchangedKeys(t, tree, root, fields, docs, x, x, y, q, {x});
    }

    /** The left sibling y takes over the documents of x; their parent is not told yet. */
    method LeafIntoPrev(x: NodeId, y: NodeId, q: NodeId, k: nat) returns (ghost m: Node)
      requires Mergeable(nodes, y, x, q, k) && nodes[x].Leaf?
      modifies this`nodes
      ensures q in nodes && nodes[q] == old(nodes)[q]
      ensures Merged(old(nodes), nodes[q := Unlisted(nodes[q], k, k + 1)], y, x, m, q, k, true)
      ensures SameKinds(old(nodes), nodes)
      ensures m.Leaf? && m.ids == old(nodes)[y].ids + old(nodes)[x].ids
    {
      var node, prev := nodes[x], nodes[y];
      prev := prev.(ids := prev.ids + node.ids, next := node.next);
      if node.prev.Some? && node.next.Some? {
        nodes := nodes[node.next.value := nodes[node.next.value].(prev := node.prev)];
      }
      nodes := nodes[y := prev];
      m := prev;
    }

    /** The right sibling y takes over the documents of x; their parent is not told yet. */
    method LeafIntoNext(x: NodeId, y: NodeId, q: NodeId, k: nat) returns (ghost m: Node)
      requires Mergeable(nodes, x, y, q, k) && nodes[x].Leaf?
      modifies this`nodes
      ensures q in nodes && nodes[q] == old(nodes)[q]
      ensures Merged(old(nodes), nodes[q := Unlisted(nodes[q], k, k)], x, y, m, q, k, false)
      ensures SameKinds(old(nodes), nodes)
      ensures m.Leaf? && m.ids == old(nodes)[x].ids + old(nodes)[y].ids
    {
      var node, next := nodes[x], nodes[y];
      next := next.(ids := node.ids + next.ids, prev := node.prev);
      if node.prev.Some? && node.next.Some? {
        nodes := nodes[node.prev.value := nodes[node.prev.value].(next := node.next)];
      }
      nodes := nodes[y := next];
      m := next;
    }

    method FoldLeafPrev(docs: Docs, x: NodeId, y: NodeId, q: NodeId, k: nat) returns (ghost t': Shape)
      requires tree.ns == nodes && Thin(tree, root, count, MinVals(), MaxVals(), 0, x, {})
      requires Keyed(tree, fields, docs, {x})
      requires Adjacent(tree, root, 0, y, x, q, k) && Size(nodes[x]) < MinVals() && Size(nodes[y]) <= MinVals()
      modifies this`nodes
      ensures q in nodes && nodes[q] == old(nodes)[q] && t'.ns == nodes[q := Unlisted(nodes[q], k, k + 1)]
      ensures Thin(t', root, count, MinVals(), MaxVals(), 1, q, {x}) && Contents(t'.ns, t'.levels) == old(Entries())
      ensures !OnLevel(t', 0, x) && Keyed(t', fields, docs, {}) && t'.height == tree.height
      ensures old(nodes)[x].next.Some? ==> OnLevel(t', 0, old(nodes)[x].next.value)
    {
      ghost var t := tree;
      AdjacentMergeable(t, root, count, MinVals(), MaxVals(), 0, x, {}, y, x, q, k);
      KeyOfLeaf(t, fields, docs, {x}, y);
      ghost var m := LeafIntoPrev(x, y, q, k);
      t' := MergeEffect(t, root, count, MinVals(), MaxVals(), 0, x, {}, y, x, q, k, m, true,
          nodes[q := Unlisted(nodes[q], k, k + 1)], {x});
      assert LeafFirst(t'.ns, t'.first, fields, docs, y);
      ExchangedKeys(t, t', root, fields, docs, x, y, x, q, {});
      if t.ns[x].next.Some? { NextStays(t, t', root, y, x, q, k); }
    }

    method FoldLeafNext(docs: Docs, x: NodeId, y: NodeId, q: NodeId, k: nat) returns (ghost t': Shape)
      requires tree.ns == nodes && Thin(tree, root, count, MinVals(), MaxVals(), 0, x, {})
      requires Keyed(tree, fields, docs, {x})
      requires Adjacent(tree, root, 0, x, y, q, k) && Size(nodes[x]) < MinVals() && Size(nodes[y]) <= MinVals()
      modifies this`nodes
      ensures q in nodes && nodes[q] == old(nodes)[q] && t'.ns == nodes[q := Unlisted(nodes[q], k, k)]
      ensures Thin(t', root, count, MinVals(), MaxVals(), 1, q, {x}) && Contents(t'.ns, t'.levels) == old(Entries())
      ensures !OnLevel(t', 0, x) && Keyed(t', fields, docs, {y}) && t'.height == tree.height
      ensures OnLevel(t', 0, y) && y in nodes && Ids(nodes, y) != [] && y != q
    {
      ghost var t := tree;
      AdjacentMergeable(t, root, count, MinVals(), MaxVals(), 0, x, {}, x, y, q, k);
      ghost var m := LeafIntoNext(x, y, q, k);
      t' := MergeEffect(t, root, count, MinVals(), MaxVals(), 0, x, {}, x, y, q, k, m, false,
          nodes[q := Unlisted(nodes[q], k, k)], {x});
      ExchangedKeys(t, t', root, fields, docs, x, x, y, q, {y});
    }

    /** The parent of a merged-away leaf x drops its entry, and the record of x is deleted. */
    method Detach(docs: Docs, x: NodeId, q: NodeId, k: nat, dead: nat, ghost t0: Shape, ghost l: NodeId,
        ghost r: NodeId, ghost t: Shape, ghost except: set<NodeId>)
      requires q in nodes && nodes[q].Inner? && k < |nodes[q].vals| && dead < |nodes[q].children|
      requires t.ns == nodes[q := Unlisted(nodes[q], k, dead)]
      requires Adjacent(t0, root, 0, l, r, q, k)
      requires if dead == k then x == l else x == r && dead == k + 1
      requires t0.ns[q] == nodes[q]
      requires x in t0.height && t0.height[x] == 0 && q in t0.height && t0.height[q] == 1 && 0 < q <= count
      requires Thin(t, root, count, MinVals(), MaxVals(), 1, q, {x}) && !OnLevel(t, 0, x)
      requires Keyed(t, fields, docs, except) && t.height == t0.height
      modifies this`nodes, this`root, this`tree
      ensures tree.ns == nodes && Whole(tree, root, count, MinVals(), MaxVals(), {})
      ensures Entries() == Contents(t.ns, t.levels)
      ensures LeavesKept(t, tree) && Keyed(tree, fields, docs, except)
      ensures q in nodes && nodes[q].Inner? && x !in nodes[q].children && x !in nodes
    {
      ghost var root0 := root;
      var parent := RmIndex(k, dead, q, t, 1, {x});
      NotListed(t0, root0, tree, root, x, l, r, q, k, dead, parent);
      ghost var t1 := tree;
      nodes := nodes - {x};
      nodes := nodes[q := parent];
      Cleanup(t1, root, count, MinVals(), MaxVals(), x, q, parent, nodes);
      tree := t1.(ns := nodes);
      KeptTwice(t, t1, tree);
      KeptKeys(t, tree, fields, docs, except);
    }

    method MergeLeafPrev(docs: Docs, x: NodeId, y: NodeId, q: NodeId, k: nat, ghost zi: nat)
      requires tree.ns == nodes && Thin(tree, root, count, MinVals(), MaxVals(), 0, x, {})
      requires Keyed(tree, fields, docs, {x})
      requires Adjacent(tree, root, 0, y, x, q, k) && Size(nodes[x]) < MinVals() && Size(nodes[y]) <= MinVals()
      modifies this`nodes, this`root, this`tree
      ensures tree.ns == nodes && Unsettled(tree, root, count, MinVals(), MaxVals(), fields, docs, x, zi, false)
      ensures Entries() == old(Entries())
      ensures q in nodes && nodes[q].Inner? && x !in nodes[q].children && x !in nodes
      ensures old(nodes)[x].next.Some? ==>
        var v := old(nodes)[x].next.value; v in nodes && nodes[v].Leaf? && nodes[v].ids != []
    {
      ghost var t, next := tree, nodes[x].next;
      AdjacentHeights(t, root, count, MinVals(), MaxVals(), 0, x, {}, y, x, q, k);
      ghost var t' := FoldLeafPrev(docs, x, y, q, k);
      Detach(docs, x, q, k, k + 1, t, y, x, t', {});
      if next.Some? { KeptLeaf(t', tree, fields, docs, next.value); }
    }

    method MergeLeafNext(docs: Docs, x: NodeId, y: NodeId, q: NodeId, k: nat)
      requires tree.ns == nodes && Thin(tree, root, count, MinVals(), MaxVals(), 0, x, {})
      requires Keyed(tree, fields, docs, {x})
      requires Adjacent(tree, root, 0, x, y, q, k) && Size(nodes[x]) < MinVals() && Size(nodes[y]) <= MinVals()
      modifies this`nodes, this`root, this`tree
      ensures tree.ns == nodes && Unsettled(tree, root, count, MinVals(), MaxVals(), fields, docs, y, 0, true)
      ensures Entries() == old(Entries())
      ensures y in nodes && nodes[y].Leaf?
    {
      ghost var t := tree;
      AdjacentHeights(t, root, count, MinVals(), MaxVals(), 0, x, {}, x, y, q, k);
      ghost var t' := FoldLeafNext(docs, x, y, q, k);
      Detach(docs, x, q, k, k, t, x, y, t', {y});
      assert SameBody(t'.ns, tree.ns, y);
    }

    /** A leaf below the root that is one document short borrows or merges. Reports which
        leaf's smallest key may have changed, and the position that decides it. */
    method RefillLeaf(docs: Docs, index: nat, x: NodeId) returns (z: NodeId, zi: nat, ghost live: bool)
      requires tree.ns == nodes && Thin(tree, root, count, MinVals(), MaxVals(), 0, x, {})
      requires Keyed(tree, fields, docs, {x})
      requires index > 0 ==> LeafFirst(nodes, tree.first, fields, docs, x)
      requires nodes[x].parent.Some? && Size(nodes[x]) < MinVals()
      modifies this`nodes, this`root, this`tree
      ensures tree.ns == nodes && Unsettled(tree, root, count, MinVals(), MaxVals(), fields, docs, z, zi, live)
      ensures Entries() == old(Entries())
      ensures live ==> z in nodes && nodes[z].Leaf?
      ensures !live ==>
        && z == x && x !in nodes
        && (var q := old(nodes)[x].parent.value; q in nodes && nodes[q].Inner? && x !in nodes[q].children)
        && (old(nodes)[x].next.Some? ==>
          var v := old(nodes)[x].next.value; v in nodes && nodes[v].Leaf? && nodes[v].ids != [])
    {
      var node := nodes[x];
      z, zi, live := x, index, true;
      var q := node.parent.value;
      HasSibling(tree, root, count, MinVals(), MaxVals(), 0, x, {}, q);
      var parent := nodes[q];
      var k := IndexOf(x, parent.children);
      var isPrev, isNext := k > 0, k + 1 < |parent.children|;
      if isPrev {
        SiblingSize(tree, root, count, MinVals(), MaxVals(), 0, x, {}, parent.children[k - 1], x, q, k - 1,
            parent.children[k - 1]);
      }
      if isNext {
        SiblingSize(tree, root, count, MinVals(), MaxVals(), 0, x, {}, x, parent.children[k + 1], q, k,
            parent.children[k + 1]);
      }
      if isPrev && !(Size(nodes[parent.children[k - 1]]) - 1 < MinVals()) {
        LeafFromPrev(docs, x, parent.children[k - 1], q, k - 1, index);
      } else if isNext && !(Size(nodes[parent.children[k + 1]]) - 1 < MinVals()) {
        LeafFromNext(docs, x, parent.children[k + 1], q, k, index);
      } else if isPrev && !(Size(nodes[parent.children[k - 1]]) + Size(node) > MaxVals()) {
        MergeLeafPrev(docs, x, parent.children[k - 1], q, k - 1, index);
        live := false;
      } else if isNext && !(Size(nodes[parent.children[k + 1]]) + Size(node) > MaxVals()) {
        z, zi := parent.children[k + 1], 0;
        MergeLeafNext(docs, x, z, q, k);
      } else {
        assert false;
      }
    }

    /** Restores the tree after leaf x lost the document at position index. */
    method Balance(docs: Docs, index: nat, x: NodeId)
      requires tree.ns == nodes && Thin(tree, root, count, MinVals(), MaxVals(), 0, x, {})
      requires Keyed(tree, fields, docs, {x})
      requires index > 0 ==> LeafFirst(nodes, tree.first, fields, docs, x)
      modifies this`nodes, this`root, this`tree
      ensures Sane(docs, {}) && Entries() == old(Entries())
    {
      NodeIsWellLinked(tree, root, 0, x);
      KidsOf(tree, root, 0, x);
      var node := nodes[x];
      var z, zi := x, index;
      ghost var live := true;
      if Size(node) < MinVals() {
        if node.parent.Some? {
          z, zi, live := RefillLeaf(docs, index, x);
        } else if node.ids == [] {
          root := None;
          nodes := nodes - {x};
          live := false;
          EmptyTree(tree, count, MinVals(), MaxVals(), x, nodes);
          tree := Shape(nodes, [], tree.first, tree.height);
        }
      }
      Settle(docs, zi, z, if z in nodes then nodes[z] else node, live);
    }

    // ----- finding a document

    /** The position a bound agrees with, or else the ones just before and after it; k
        counts the documents before the bound. */
    method BinarySearch(docs: Docs, ids: seq<DocId>, bound: SortKey, nullLast: bool)
        returns (index: Option<nat>, smaller: Option<nat>, greater: Option<nat>, ghost k: nat)
      requires Sorted(fields, docs, ids) && |bound.parts| == |fields|
      ensures index.Some? ==>
        index.value < |ids| && CompAt(fields, docs, bound, ids, index.value, nullLast) == 0 && smaller.None?
            && greater.None?
      ensures index.None? ==>
        && k <= |ids| && smaller == (if k > 0 then Some(k - 1) else None)
        && greater == (if k < |ids| then Some(k) else None)
        && forall p {:trigger CompAt(fields, docs, bound, ids, p, nullLast)} :: 0 <= p < |ids| ==>
             CompAt(fields, docs, bound, ids, p, nullLast) == if p < k then -1 else 1
    {
      var left, right := 0, |ids| - 1;
      while left <= right
        invariant 0 <= left <= right + 1 <= |ids|
        invariant forall p {:trigger CompAt(fields, docs, bound, ids, p, nullLast)} :: 0 <= p < left ==>
          CompAt(fields, docs, bound, ids, p, nullLast) == -1
        invariant forall p {:trigger CompAt(fields, docs, bound, ids, p, nullLast)} :: right < p < |ids| ==>
          CompAt(fields, docs, bound, ids, p, nullLast) == 1
        decreases right - left
      {
        var mid := (left + right) / 2;
        var c := Comp(fields, KeyOf(fields, docs, ids[mid]), bound, nullLast);
        CompIsTotalOrder(fields, bound, KeyOf(fields, docs, ids[mid]), bound, nullLast);
        assert CompAt(fields, docs, bound, ids, mid, nullLast) == -c;
        if c == 0 {
          return Some(mid), None, None, 0;
        } else if c == 1 {
          forall p | 0 <= p < mid ensures CompAt(fields, docs, bound, ids, p, nullLast) == -1 {
            CompMonotone(fields, docs, bound, ids, p, mid, nullLast);
          }
          left := mid + 1;
        } else {
          forall p | mid < p < |ids| ensures CompAt(fields, docs, bound, ids, p, nullLast) == 1 {
            CompMonotone(fields, docs, bound, ids, mid, p, nullLast);
          }
          right := mid - 1;
        }
      }
      index, k := None, left;
      smaller := if right >= 0 then Some(right) else None;
      greater := if left < |ids| then Some(left) else None;
    }

    /** The position of key in a leaf. Since no two documents share a sort key, there is
        never a need to look into the leaf before. */
    method SearchNode(docs: Docs, x: NodeId, key: DocId) returns (index: Option<nat>)
      requires x in nodes && nodes[x].Leaf? && EndsWithId(fields) && Sorted(fields, docs, nodes[x].ids)
      ensures index.Some? <==> key in nodes[x].ids
      ensures index.Some? ==> index.value < |nodes[x].ids| && nodes[x].ids[index.value] == key
    {
      var ids, val := nodes[x].ids, KeyOf(fields, docs, key);
      var start, smaller, greater, k := BinarySearch(docs, ids, val, false);
      if start.None? {
        forall p | 0 <= p < |ids| ensures ids[p] != key {
          CompIsTotalOrder(fields, val, val, val, false);
          assert CompAt(fields, docs, val, ids, p, false) == if p < k then -1 else 1;
        }
        return None;
      }
      CompIsTotalOrder(fields, val, KeyOf(fields, docs, ids[start.value]), val, false);
      assert CompAt(fields, docs, val, ids, start.value, false) == 0;
      KeysDiffer(fields, docs, key, ids[start.value]);
      var at: int := start.value;
      var i := at - 1;
      while i >= 0
        invariant -1 <= i < start.value
      {
        if ids[i] == key { return Some(i); }
        if Comp(fields, KeyOf(fields, docs, ids[i]), val, false) == 1 { break; }
        i := i - 1;
      }
      var j := 0;
      while j < |ids|
        invariant 0 <= j <= start.value
      {
        if ids[j] == key { return Some(j); }
        CompMonotone(fields, docs, val, ids, j, start.value, false);
        assert CompAt(fields, docs, val, ids, j, false) == -1;
        if Comp(fields, val, KeyOf(fields, docs, ids[j]), false) == 1 { return None; }
        j := j + 1;
      }
      assert false;
    }

    /** Where a document of the index is. */
    method SearchByKey(docs: Docs, key: DocId) returns (leaf: Option<NodeId>, index: nat, ghost i: nat, ghost m: nat)
      requires Valid(docs) && EndsWithId(fields)
      ensures leaf.Some? <==> key in Entries()
      ensures leaf.Some? ==>
        && tree.levels != [] && i < |tree.levels[0]| && tree.levels[0][i] == leaf.value && LeafAt(tree, i, m)
        && leaf.value in nodes && nodes[leaf.value].Leaf? && index < |nodes[leaf.value].ids|
        && nodes[leaf.value].ids[index] == key
        && Sorted(fields, docs, nodes[leaf.value].ids)
    {
      index, i, m := 0, 0, 0;
      if key !in docs {
        assert forall p :: 0 <= p < |Entries()| ==> Entries()[p] in docs;
        return None, 0, 0, 0;
      }
      leaf, i := Search(Some(KeyOf(fields, docs, key)), false);
      if leaf.Some? {
        KidsOf(tree, root, 0, leaf.value);
        m := FoundInLeaf(tree, root, fields, docs, key, i);
        var found := SearchNode(docs, leaf.value, key);
        if found.Some? { index := found.value; } else { leaf := None; }
      }
    }

    /** The index stays valid when no document it lists changes its sort key. */
    lemma {:induction false} DocsFrame(docs: Docs, docs': Docs)
      requires Valid(docs)
      requires forall x {:trigger x in docs'} :: x in Entries() ==>
        x in docs' && KeyOf(fields, docs', x) == KeyOf(fields, docs, x)
      ensures Valid(docs')
    {
      var c := Entries();
      forall i | 0 <= i < |c| ensures c[i] in docs' && KeyOf(fields, docs', c[i]) == KeyOf(fields, docs, c[i]) {
        assert c[i] in c;
      }
      KeyedFrame(tree, fields, docs, docs');
      SortedFrame(fields, docs, docs', c);
    }

    // ----- deleting a document

    /** ids without any occurrence of key. */
    function Without(key: DocId, ids: seq<DocId>): seq<DocId>
    {
      if ids == [] then [] else (if ids[0] == key then [] else [ids[0]]) + Without(key, ids[1..])
    }

    lemma {:induction false} WithoutOne(key: DocId, ids: seq<DocId>, j: nat)
      requires NoDup(ids) && j < |ids| && ids[j] == key
      ensures Without(key, ids) == ids[..j] + ids[j + 1..]
    {
      if j == 0 {
        forall i | 1 <= i < |ids| ensures ids[i] != key { assert Differ(ids, 0, ids, i); }
        WithoutNone(key, ids[1..]);
      } else {
        assert Differ(ids, 0, ids, j);
        forall i, k | i < k ensures Differ(ids[1..], i, ids[1..], k) { assert Differ(ids, i + 1, ids, k + 1); }
        WithoutOne(key, ids[1..], j - 1);
        assert ids[..j] == [ids[0]] + ids[1..][..j - 1] && ids[j + 1..] == ids[1..][j..];
      }
    }

    lemma {:induction false} WithoutNone(key: DocId, ids: seq<DocId>)
      requires key !in ids
      ensures Without(key, ids) == ids
    {
      if ids != [] { WithoutNone(key, ids[1..]); }
    }

    lemma {:induction false} ValidParts(docs: Docs)
      requires Valid(docs)
      ensures tree.ns == nodes && TreeInvariant.Sane(tree, root, count, MinVals(), MaxVals(), fields, docs, {})
      ensures Sane(docs, {})
      ensures Entries() == Contents(nodes, tree.levels) && Sorted(fields, docs, Entries())
    {
    }

    lemma {:induction false} ValidFrom(docs: Docs)
      requires Sane(docs, {}) && Sorted(fields, docs, Entries())
      ensures Valid(docs)
    {
    }

    /** Takes a document out of its leaf, which may leave the leaf thin and its separator stale. */
    method TakeOut(docs: Docs, key: DocId, x: NodeId, index: nat, ghost i: nat, ghost m: nat)
      requires Valid(docs) && LeafAt(tree, i, m) && tree.levels != [] && i < |tree.levels[0]| && tree.levels[0][i] == x
      requires x in nodes && nodes[x].Leaf? && index < |nodes[x].ids| && nodes[x].ids[index] == key
      requires Sorted(fields, docs, nodes[x].ids)
      modifies this`nodes, this`tree
      ensures tree.ns == nodes && Thin(tree, root, count, MinVals(), MaxVals(), 0, x, {})
      ensures Keyed(tree, fields, docs - {key}, {x})
      ensures index > 0 ==> LeafFirst(nodes, tree.first, fields, docs - {key}, x)
      ensures m + index < |old(Entries())| && old(Entries())[m + index] == key
      ensures Entries() == old(Entries())[..m + index] + old(Entries())[m + index + 1..]
      ensures key !in Entries() && Sorted(fields, docs - {key}, Entries())
    {
      hide *;
      ValidParts(docs);
      SortedDistinct(fields, docs, nodes[x].ids);
      WithoutOne(key, nodes[x].ids, index);
      ghost var t := tree;
      nodes := nodes[x := nodes[x].(ids := Without(key, nodes[x].ids))];
      tree := t.(ns := nodes);
      LosesOne(t.ns, nodes, x, index, key);
      RemovedFromLeaf(t, root, count, MinVals(), MaxVals(), fields, docs, i, m, index, x, key, nodes);
      EntriesAre();
    }

    lemma {:induction false} LosesOne(ns: Nodes, ns': Nodes, x: NodeId, index: nat, key: DocId)
      requires x in ns && ns[x].Leaf? && index < |ns[x].ids|
      requires Without(key, ns[x].ids) == ns[x].ids[..index] + ns[x].ids[index + 1..]
      requires ns' == ns[x := ns[x].(ids := Without(key, ns[x].ids))]
      ensures LeafLoses(ns, ns', x, index)
    {
    }

    lemma {:induction false} EntriesAre()
      ensures Entries() == Contents(nodes, tree.levels)
    {
    }

    /** Takes a document out of the index; one that is not there changes nothing. */
    method Delete(docs: Docs, key: DocId) returns (docs': Docs)
      requires Valid(docs) && EndsWithId(fields)
      modifies this`nodes, this`root, this`tree
      ensures key !in old(Entries()) ==> docs' == docs && nodes == old(nodes) && root == old(root) && tree == old(tree)
      ensures key in old(Entries()) ==> docs' == docs - {key}
      ensures Valid(docs') && key !in Entries()
      ensures key in old(Entries()) ==> exists p: nat ::
        p < |old(Entries())| && old(Entries())[p] == key && Entries() == old(Entries())[..p] + old(Entries())[p + 1..]
    {
      hide *;
      var leaf, index, i, m := SearchByKey(docs, key);
      if leaf.None? { return docs; }
      var x := leaf.value;
      docs' := docs - {key};
      TakeOut(docs, key, x, index, i, m);
      Balance(docs', index, x);
      ValidFrom(docs');
    }

    // ----- range queries

    /** x is the i-th leaf, and holds the documents from position m on. */
    ghost predicate LeafPos(x: NodeId, i: nat, m: nat)
      reads this
    {
      && tree.levels != [] && i < |tree.levels[0]| && tree.levels[0][i] == x && LeafAt(tree, i, m)
      && x in nodes && nodes[x].Leaf? && nodes[x].ids == Ids(tree.ns, x) && nodes[x].ids != []
    }

    lemma {:induction false} PosParts(x: NodeId, i: nat, m: nat)
      requires LeafPos(x, i, m)
      ensures tree.levels != [] && i < |tree.levels[0]| && tree.levels[0][i] == x && LeafAt(tree, i, m)
      ensures x in nodes && nodes[x].Leaf? && nodes[x].ids == Ids(tree.ns, x)
    {
    }

    lemma {:induction false} PosFrom(x: NodeId, i: nat, m: nat)
      requires tree.ns == nodes && tree.levels != [] && i < |tree.levels[0]| && tree.levels[0][i] == x
      requires LeafAt(tree, i, m)
      requires x in nodes && nodes[x].Leaf? && nodes[x].ids != []
      ensures LeafPos(x, i, m)
    {
    }

    lemma {:induction false} SaneParts(docs: Docs)
      requires Sane(docs, {})
      ensures tree.ns == nodes && Tree(tree, root) && Keyed(tree, fields, docs, {})
      ensures Entries() == Contents(nodes, tree.levels)
    {
    }

    static lemma {:induction false} AtMeans(xs: seq<NodeId>, i: int)
      ensures At(xs, i) == if 0 <= i < |xs| then Some(xs[i]) else None
    {
    }

    lemma {:induction false} NextPos(docs: Docs, x: NodeId, i: nat, m: nat)
      requires Sane(docs, {}) && LeafPos(x, i, m)
      ensures nodes[x].next.Some? ==> LeafPos(nodes[x].next.value, i + 1, m + |nodes[x].ids|)
      ensures nodes[x].next.None? ==> m + |nodes[x].ids| == |Entries()|
    {
      hide *;
      SaneParts(docs);
      PosParts(x, i, m);
      NextLeaf(tree, root, fields, docs, i, m);
      AtMeans(tree.levels[0], i + 1);
      if nodes[x].next.Some? {
        NextLeaf(tree, root, fields, docs, i + 1, m + |nodes[x].ids|);
        PosFrom(nodes[x].next.value, i + 1, m + |nodes[x].ids|);
      }
    }

    lemma {:induction false} PrevPos(docs: Docs, x: NodeId, i: nat, m: nat)
      requires Sane(docs, {}) && LeafPos(x, i, m)
      ensures nodes[x].prev.Some? ==>
        i > 0 && m >= |Ids(nodes, nodes[x].prev.value)|
            && LeafPos(nodes[x].prev.value, i - 1, m - |Ids(nodes, nodes[x].prev.value)|)
      ensures nodes[x].prev.None? ==> m == 0
    {
      hide *;
      SaneParts(docs);
      PosParts(x, i, m);
      PrevLeaf(tree, root, fields, docs, i, m);
      AtMeans(tree.levels[0], i - 1);
      if nodes[x].prev.Some? {
        PrevLeaf(tree, root, fields, docs, i - 1, m - |Ids(nodes, nodes[x].prev.value)|);
        PosFrom(nodes[x].prev.value, i - 1, m - |Ids(nodes, nodes[x].prev.value)|);
      }
    }

    lemma {:induction false} LeafFacts(docs: Docs, x: NodeId, i: nat, m: nat)
      requires Sane(docs, {}) && LeafPos(x, i, m)
      ensures x in nodes && nodes[x].Leaf? && nodes[x].ids != [] && nodes[x].ids == Ids(nodes, x)
      ensures StandsAt(Entries(), nodes[x].ids, m)
      ensures tree.levels != [] && i < |tree.levels[0]|
    {
    }

    /** The documents of one leaf, from position index on, until the end bound or the limit. */
    method TakeFrom(docs: Docs, ids: seq<DocId>, vals0: seq<DocId>, index: nat, opt: RangeOpt, ghost c: seq<DocId>,
        ghost m: nat)
        returns (vals: seq<DocId>, done: bool)
      requires StandsAt(c, ids, m) && index <= |ids|
      ensures Scan(fields, docs, opt, c, m + index, vals0) == if done then vals
        else Scan(fields, docs, opt, c, m + |ids|, vals)
    {
      vals, done := vals0, false;
      var j := index;
      while j < |ids|
        invariant index <= j <= |ids|
        invariant Scan(fields, docs, opt, c, m + j, vals) == Scan(fields, docs, opt, c, m + index, vals0)
      {
        assert ids[j] == c[m + j];
        if Stops(fields, opt, KeyOf(fields, docs, ids[j])) { return vals, true; }
        vals := vals + [ids[j]];
        if |vals| == LimitOf(opt) { return vals, true; }
        j := j + 1;
      }
    }

    /** Appends documents from position index of leaf x on, leaf after leaf. */
    method GetVals(docs: Docs, x: NodeId, vals0: seq<DocId>, index: nat, opt: RangeOpt, ghost i: nat, ghost m: nat)
        returns (vals: seq<DocId>)
      requires Sane(docs, {}) && LeafPos(x, i, m) && index <= |nodes[x].ids|
      ensures vals == Scan(fields, docs, opt, Entries(), m + index, vals0)
      decreases |tree.levels[0]| - i
    {
      hide *;
      LeafFacts(docs, x, i, m);
      var done;
      vals, done := TakeFrom(docs, nodes[x].ids, vals0, index, opt, Entries(), m);
      NextPos(docs, x, i, m);
      if !done && nodes[x].next.Some? {
        LeafFacts(docs, nodes[x].next.value, i + 1, m + |nodes[x].ids|);
        vals := GetVals(docs, nodes[x].next.value, vals, 0, opt, i + 1, m + |nodes[x].ids|);
      } else {
        ScanEnds(fields, docs, opt, Entries(), m + |nodes[x].ids|, vals);
      }
    }

    /** The documents of one leaf, from position index downwards. */
    method TakeBack(docs: Docs, ids: seq<DocId>, vals0: seq<DocId>, index: nat, opt: RangeOpt, ghost c: seq<DocId>,
        ghost m: nat)
        returns (vals: seq<DocId>, done: bool)
      requires StandsAt(c, ids, m) && index < |ids|
      ensures ScanBack(fields, docs, opt, c, m + index + 1, vals0) == if done then vals
        else ScanBack(fields, docs, opt, c, m, vals)
    {
      vals, done := vals0, false;
      var j: int := index;
      while j >= 0
        invariant -1 <= j <= index
        invariant ScanBack(fields, docs, opt, c, m + j + 1, vals) == ScanBack(fields, docs, opt, c, m + index + 1,
          vals0)
      {
        assert ids[j] == c[m + j];
        if Stops(fields, opt, KeyOf(fields, docs, ids[j])) { return vals, true; }
        vals := vals + [ids[j]];
        if |vals| == LimitOf(opt) { return vals, true; }
        j := j - 1;
      }
    }

    /** Appends documents from position index of leaf x downwards, leaf after leaf. */
    method GetValsReverse(docs: Docs, x: NodeId, vals0: seq<DocId>, index: nat, opt: RangeOpt, ghost i: nat,
        ghost m: nat) returns (vals: seq<DocId>)
      requires Sane(docs, {}) && LeafPos(x, i, m) && index < |nodes[x].ids|
      ensures m + index + 1 <= |Entries()| && vals == ScanBack(fields, docs, opt, Entries(), m + index + 1, vals0)
      decreases i
    {
      hide *;
      LeafFacts(docs, x, i, m);
      var done;
      vals, done := TakeBack(docs, nodes[x].ids, vals0, index, opt, Entries(), m);
      PrevPos(docs, x, i, m);
      if !done && nodes[x].prev.Some? {
        var y := nodes[x].prev.value;
        LeafFacts(docs, y, i - 1, m - |Ids(nodes, y)|);
        vals := GetValsReverse(docs, y, vals, |nodes[y].ids| - 1, opt, i - 1, m - |Ids(nodes, y)|);
      } else {
        ScanEnds(fields, docs, opt, Entries(), m, vals);
      }
    }

    /** Moves to the first of the documents that agree with a bound the one at index agrees
        with; there is only the one, and the leaf before holds none. */
    method FindIndex(docs: Docs, index0: Option<nat>, x: NodeId, bound: SortKey, ghost i: nat, ghost m: nat)
        returns (index: Option<nat>, y: NodeId)
      requires Sane(docs, {}) && LeafPos(x, i, m) && |bound.parts| == |fields|
      requires index0.Some? ==> index0.value < |nodes[x].ids|
      requires forall p {:trigger CompAt(fields, docs, bound, Entries(), p, false)} ::
        0 <= p < (m + if index0.Some? then index0.value else |nodes[x].ids|) ==>
        CompAt(fields, docs, bound, Entries(), p, false) == -1
      ensures index0.Some? ==> index == index0 && y == x
      ensures index0.None? ==> index.None?
      decreases i
    {
      hide *;
      LeafFacts(docs, x, i, m);
      var ids := nodes[x].ids;
      PrevPos(docs, x, i, m);
      index := index0;
      var isPrev := false;
      if index0 == Some(0) {
        isPrev := nodes[x].prev.Some?;
      } else {
        var last: nat := if index0.Some? then index0.value else |ids|;
        var reached;
        index, reached := BackOver(docs, ids, index0, last, bound);
        if reached { isPrev := nodes[x].prev.Some?; }
        NotAgreeing(docs, bound, Entries(), ids, m, last - 1);
      }
      y := x;
      if isPrev {
        var prev := nodes[x].prev.value;
        LeafFacts(docs, prev, i - 1, m - |Ids(nodes, prev)|);
        var index', y' := FindIndex(docs, None, prev, bound, i - 1, m - |Ids(nodes, prev)|);
        if index'.Some? { index, y := index', y'; } else { index := index0; }
      }
    }

    /** Goes back from position `last` over documents that agree with the bound; reached
        says that the first one of the leaf was among them. */
    method BackOver(docs: Docs, ids: seq<DocId>, index0: Option<nat>, last: nat, bound: SortKey)
        returns (index: Option<nat>, reached: bool)
      requires 0 < last <= |ids|
      ensures Comp(fields, KeyOf(fields, docs, ids[last - 1]), bound, false) != 0 ==> index == index0 && !reached
    {
      index, reached := index0, false;
      var j: int := last;
      j := j - 1;
      while j >= 0
        invariant -1 <= j < last
        invariant j == last - 1 ==> index == index0 && !reached
        invariant j < last - 1 ==> Comp(fields, KeyOf(fields, docs, ids[last - 1]), bound, false) == 0
      {
        if Comp(fields, KeyOf(fields, docs, ids[j]), bound, false) != 0 { break; }
        index := Some(j);
        if j == 0 { reached := true; }
        j := j - 1;
      }
    }

    lemma {:induction false} NotAgreeing(docs: Docs, bound: SortKey, c: seq<DocId>, ids: seq<DocId>, m: nat, j: nat)
      requires StandsAt(c, ids, m) && j < |ids| && |bound.parts| == |fields|
      requires CompAt(fields, docs, bound, c, m + j, false) == -1
      ensures Comp(fields, KeyOf(fields, docs, ids[j]), bound, false) != 0
    {
      assert c[m + j] == ids[j];
      CompFlipsFrom(fields, bound, KeyOf(fields, docs, ids[j]), false, 0);
    }

    /** The first position from `from` on whose document does not agree with the bound or,
        if strict, comes after it. */
    method NextIn(docs: Docs, ids: seq<DocId>, from: nat, bound: SortKey, strict: bool, ghost c: seq<DocId>,
        ghost m: nat) returns (index: Option<nat>)
      requires |bound.parts| == |fields| && StandsAt(c, ids, m)
      ensures index.Some? ==> from <= index.value < |ids| && Wanted(docs, ids[index.value], bound, strict)
      ensures forall j {:trigger ids[j]} :: from <= j < (if index.Some? then index.value else |ids|) ==>
        !Wanted(docs, ids[j], bound, strict)
      ensures from < |ids| && CompAt(fields, docs, bound, c, m + from, false) == 1 ==> index == Some(from)
    {
      var j := from;
      while j < |ids|
        invariant from <= j
        invariant forall k {:trigger ids[k]} :: from <= k < j && k < |ids| ==> !Wanted(docs, ids[k], bound, strict)
      {
        if Wanted(docs, ids[j], bound, strict) { break; }
        j := j + 1;
      }
      index := if j < |ids| then Some(j) else None;
      if from < |ids| {
        assert ids[from] == c[m + from];
        CompFlipsFrom(fields, bound, KeyOf(fields, docs, ids[from]), false, 0);
      }
    }

    predicate Wanted(docs: Docs, id: DocId, bound: SortKey, strict: bool)
    {
      if strict then Comp(fields, KeyOf(fields, docs, id), bound, false) == -1
      else Comp(fields, KeyOf(fields, docs, id), bound, false) != 0
    }

    /** The last position before `to` whose document comes before the bound. */
    method PrevIn(docs: Docs, ids: seq<DocId>, to: nat, bound: SortKey, ghost c: seq<DocId>, ghost m: nat)
        returns (index: Option<nat>)
      requires to <= |ids| && |bound.parts| == |fields| && StandsAt(c, ids, m)
      ensures index.Some? ==> index.value < to && Comp(fields, KeyOf(fields, docs, ids[index.value]), bound, true) == 1
      ensures forall j {:trigger ids[j]} :: (if index.Some? then index.value + 1 else 0) <= j < to ==>
        Comp(fields, KeyOf(fields, docs, ids[j]), bound, true) != 1
      ensures to > 0 && CompAt(fields, docs, bound, c, m + to - 1, true) == -1 ==> index == Some(to - 1)
    {
      var j: int := to;
      j := j - 1;
      while j >= 0
        invariant -1 <= j < to
        invariant forall k {:trigger ids[k]} :: j < k < to ==>
          Comp(fields, KeyOf(fields, docs, ids[k]), bound, true) != 1
      {
        if Comp(fields, KeyOf(fields, docs, ids[j]), bound, true) == 1 { break; }
        j := j - 1;
      }
      index := if j >= 0 then Some(j) else None;
      if to > 0 {
        assert ids[to - 1] == c[m + to - 1];
        CompFlipsFrom(fields, bound, KeyOf(fields, docs, ids[to - 1]), true, 0);
      }
    }

    /** The document after position index, in this leaf or a later one. Not strict, any
        document that does not agree with the bound will do; strict, only one that comes
        after it. Here the very next document is such a one, if there is any. */
    method FindNext(docs: Docs, index0: int, x: NodeId, bound: SortKey, strict: bool, ghost i: nat, ghost m: nat)
        returns (index: Option<nat>, y: NodeId, ghost i': nat, ghost m': nat)
      requires Sane(docs, {}) && LeafPos(x, i, m) && |bound.parts| == |fields| && -1 <= index0 < |nodes[x].ids|
      requires m + index0 + 1 < |Entries()| ==> CompAt(fields, docs, bound, Entries(), m + index0 + 1, false) == 1
      ensures index.Some? <==> m + index0 + 1 < |Entries()|
      ensures index.Some? ==> LeafPos(y, i', m') && index.value < |nodes[y].ids| && m' + index.value == m + index0 + 1
      decreases |tree.levels[0]| - i
    {
      hide *;
      LeafFacts(docs, x, i, m);
      y, i', m' := x, i, m;
      index := NextIn(docs, nodes[x].ids, index0 + 1, bound, strict, Entries(), m);
      if index.Some? { return; }
      NextPos(docs, x, i, m);
      if nodes[x].next.Some? {
        LeafFacts(docs, nodes[x].next.value, i + 1, m + |nodes[x].ids|);
        index, y, i', m' := FindNext(docs, -1, nodes[x].next.value, bound, strict, i + 1, m + |nodes[x].ids|);
      }
    }

    /** The last document before position index that comes before the bound. */
    method FindFirstLtIndex(docs: Docs, index0: nat, x: NodeId, bound: SortKey, ghost i: nat, ghost m: nat)
        returns (index: Option<nat>, y: NodeId, ghost i': nat, ghost m': nat)
      requires Sane(docs, {}) && LeafPos(x, i, m) && |bound.parts| == |fields| && index0 <= |nodes[x].ids|
      requires m + index0 > 0 ==> CompAt(fields, docs, bound, Entries(), m + index0 - 1, true) == -1
      ensures index.Some? <==> m + index0 > 0
      ensures index.Some? ==> LeafPos(y, i', m') && index.value < |nodes[y].ids| && m' + index.value == m + index0 - 1
      decreases i
    {
      hide *;
      LeafFacts(docs, x, i, m);
      y, i', m' := x, i, m;
      index := PrevIn(docs, nodes[x].ids, index0, bound, Entries(), m);
      if index.Some? { return; }
      PrevPos(docs, x, i, m);
      if nodes[x].prev.Some? {
        var prev := nodes[x].prev.value;
        LeafFacts(docs, prev, i - 1, m - |Ids(nodes, prev)|);
        index, y, i', m' := FindFirstLtIndex(docs, |nodes[prev].ids|, prev, bound, i - 1, m - |Ids(nodes, prev)|);
      }
    }

    /** Where the bound falls among documents c, of which a leaf holds ids. */
    method ProbeIn(docs: Docs, ids: seq<DocId>, bound: SortKey, nullLast: bool, ghost c: seq<DocId>, ghost m: nat)
        returns (index: Option<nat>, smaller: Option<nat>, greater: Option<nat>, ghost a: nat, ghost b: nat)
      requires Sorted(fields, docs, c) && Sorted(fields, docs, ids) && StandsAt(c, ids, m) && |bound.parts| == |fields|
      requires Outside(fields, docs, bound, c, ids, m, nullLast)
      ensures Falls(fields, docs, bound, c, nullLast, a, b) && Found(m, |ids|, a, b, index, smaller, greater)
      ensures m < |c| && CompAt(fields, docs, bound, c, m, nullLast) <= 0 ==> b > m
    {
      ghost var k;
      index, smaller, greater, k := BinarySearch(docs, ids, bound, nullLast);
      if index.Some? {
        a, b := m + index.value, m + index.value + 1;
        CutAt(fields, docs, bound, c, ids, m, nullLast, index.value);
      } else {
        a, b := m + k, m + k;
        CutBetween(fields, docs, bound, c, ids, m, nullLast, k);
      }
    }

    /** Where the bound falls: in leaf x, which a descent found, and so in the whole index. */
    method Probe(docs: Docs, x: NodeId, bound: SortKey, nullLast: bool, ghost i: nat)
        returns (index: Option<nat>, smaller: Option<nat>, greater: Option<nat>, ghost m: nat, ghost a: nat,
            ghost b: nat)
      requires Valid(docs) && |bound.parts| == |fields| && Between(tree, fields, bound, nullLast, 0, i)
      requires tree.levels[0][i] == x
      ensures LeafPos(x, i, m) && Falls(fields, docs, bound, Entries(), nullLast, a, b)
      ensures Found(m, |nodes[x].ids|, a, b, index, smaller, greater)
      ensures i > 0 ==> b > m
    {
      m := ProbeLeaf(tree, root, fields, docs, bound, nullLast, i);
      index, smaller, greater, a, b := ProbeIn(docs, nodes[x].ids, bound, nullLast, Entries(), m);
    }

    /** The first document at or after the start bound, in leaf x or the next. */
    method FirstAt(docs: Docs, x: NodeId, bound: SortKey, at: Option<nat>, smaller: Option<nat>, greater: Option<nat>,
        ghost i: nat, ghost m: nat, ghost a: nat, ghost b: nat)
            returns (index: Option<nat>, y: NodeId, ghost i': nat, ghost m': nat)
      requires Sane(docs, {}) && |bound.parts| == |fields| && LeafPos(x, i, m)
      requires Found(m, |nodes[x].ids|, a, b, at, smaller, greater)
      requires a == b && a < |Entries()| ==> CompAt(fields, docs, bound, Entries(), a, false) == 1
      requires forall p {:trigger CompAt(fields, docs, bound, Entries(), p, false)} :: 0 <= p < a ==>
        CompAt(fields, docs, bound, Entries(), p, false) == -1
      ensures index.Some? <==> a < |Entries()|
      ensures index.Some? ==> LeafPos(y, i', m') && index.value < |nodes[y].ids| && m' + index.value == a
    {
      hide *;
      LeafFacts(docs, x, i, m);
      FoundMeans(m, |nodes[x].ids|, a, b, at, smaller, greater);
      index, y, i', m' := at, x, i, m;
      if greater.Some? { return greater, x, i, m; }
      if at.Some? {
        var index', y' := FindIndex(docs, at, x, bound, i, m);
        if index'.Some? { index, y := index', y'; }
        return;
      }
      NextPos(docs, x, i, m);
      if smaller.Some? && nodes[x].next.Some? {
        LeafFacts(docs, nodes[x].next.value, i + 1, m + |nodes[x].ids|);
        index, y, i', m' := FindNext(docs, -1, nodes[x].next.value, bound, true, i + 1, m + |nodes[x].ids|);
      }
    }

    method StartAtForward(docs: Docs, x: NodeId, bound: SortKey, ghost i: nat)
        returns (index: Option<nat>, y: NodeId, ghost i': nat, ghost m': nat, ghost a: nat, ghost b: nat)
      requires Valid(docs) && |bound.parts| == |fields| && Between(tree, fields, bound, false, 0, i)
      requires tree.levels[0][i] == x
      ensures Falls(fields, docs, bound, Entries(), false, a, b)
      ensures index.Some? <==> a < |Entries()|
      ensures index.Some? ==> LeafPos(y, i', m') && index.value < |nodes[y].ids| && m' + index.value == a
    {
      hide *;
      ValidParts(docs);
      var at, smaller, greater;
      ghost var m;
      at, smaller, greater, m, a, b := Probe(docs, x, bound, false, i);
      FallsMeans(fields, docs, bound, Entries(), false, a, b);
      FoundMeans(m, |nodes[x].ids|, a, b, at, smaller, greater);
      if a < |Entries()| { BeyondEitherWay(fields, docs, bound, Entries(), a); }
      index, y, i', m' := FirstAt(docs, x, bound, at, smaller, greater, i, m, a, b);
    }

    /** The first document after the start bound. */
    method FirstAfter(docs: Docs, x: NodeId, bound: SortKey, at: Option<nat>, smaller: Option<nat>,
        greater: Option<nat>,
        ghost i: nat, ghost m: nat, ghost a: nat, ghost b: nat)
            returns (index: Option<nat>, y: NodeId, ghost i': nat, ghost m': nat)
      requires Sane(docs, {}) && |bound.parts| == |fields| && LeafPos(x, i, m)
      requires Found(m, |nodes[x].ids|, a, b, at, smaller, greater)
      requires b < |Entries()| ==> CompAt(fields, docs, bound, Entries(), b, false) == 1
      ensures index.Some? <==> b < |Entries()|
      ensures index.Some? ==> LeafPos(y, i', m') && index.value < |nodes[y].ids| && m' + index.value == b
    {
      hide *;
      LeafFacts(docs, x, i, m);
      FoundMeans(m, |nodes[x].ids|, a, b, at, smaller, greater);
      index, y, i', m' := None, x, i, m;
      if greater.Some? { return greater, x, i, m; }
      if at.Some? {
        index, y, i', m' := FindNext(docs, at.value, x, bound, false, i, m);
        return;
      }
      NextPos(docs, x, i, m);
      if smaller.Some? && nodes[x].next.Some? {
        LeafFacts(docs, nodes[x].next.value, i + 1, m + |nodes[x].ids|);
        index, y, i', m' := FindNext(docs, -1, nodes[x].next.value, bound, true, i + 1, m + |nodes[x].ids|);
      }
    }

    method StartAfterForward(docs: Docs, x: NodeId, bound: SortKey, ghost i: nat)
        returns (index: Option<nat>, y: NodeId, ghost i': nat, ghost m': nat, ghost a: nat, ghost b: nat)
      requires Valid(docs) && |bound.parts| == |fields| && Between(tree, fields, bound, true, 0, i)
      requires tree.levels[0][i] == x
      ensures Falls(fields, docs, bound, Entries(), true, a, b)
      ensures index.Some? <==> b < |Entries()|
      ensures index.Some? ==> LeafPos(y, i', m') && index.value < |nodes[y].ids| && m' + index.value == b
    {
      hide *;
      ValidParts(docs);
      var at, smaller, greater;
      ghost var m;
      at, smaller, greater, m, a, b := Probe(docs, x, bound, true, i);
      FallsMeans(fields, docs, bound, Entries(), true, a, b);
      FoundMeans(m, |nodes[x].ids|, a, b, at, smaller, greater);
      if b < |Entries()| { BeyondEitherWay(fields, docs, bound, Entries(), b); }
      index, y, i', m' := FirstAfter(docs, x, bound, at, smaller, greater, i, m, a, b);
    }

    /** The last document at or, if asked, before the start bound. */
    method StartReverse(docs: Docs, x: NodeId, bound: SortKey, after: bool, ghost i: nat)
        returns (index: Option<nat>, y: NodeId, ghost i': nat, ghost m': nat, ghost a: nat, ghost b: nat)
      requires Valid(docs) && |bound.parts| == |fields| && Between(tree, fields, bound, !after, 0, i)
      requires tree.levels[0][i] == x
      ensures Falls(fields, docs, bound, Entries(), !after, a, b)
      ensures index.Some? <==> (if after then a else b) > 0
      ensures index.Some? ==>
        LeafPos(y, i', m') && index.value < |nodes[y].ids| && m' + index.value + 1 == if after then a else b
    {
      hide *;
      ValidParts(docs);
      var at, smaller, greater;
      ghost var m;
      at, smaller, greater, m, a, b := Probe(docs, x, bound, !after, i);
      FallsMeans(fields, docs, bound, Entries(), !after, a, b);
      LeafFacts(docs, x, i, m);
      FoundMeans(m, |nodes[x].ids|, a, b, at, smaller, greater);
      index, y, i', m' := if after then None else at, x, i, m;
      PrevPos(docs, x, i, m);
      if smaller.Some? {
        index := smaller;
      } else if after && at.Some? {
        if a > 0 { BeyondEitherWay(fields, docs, bound, Entries(), a - 1); }
        index, y, i', m' := FindFirstLtIndex(docs, at.value, x, bound, i, m);
      }
    }

    /** The documents within the bounds, forward or in reverse, up to the limit. */
    method Range(docs: Docs, opt: RangeOpt) returns (vals: seq<DocId>)
      requires Valid(docs) && FitsAll(fields, opt)
      ensures vals == Answer(fields, docs, opt, Entries())
      ensures opt.limit.Some? && opt.limit.value >= 1 ==> |vals| <= opt.limit.value
      ensures opt.limit.None? || opt.limit.value >= 1 ==> |vals| <= 1000
    {
      AnswerSize(fields, docs, opt, Entries());
      var start := if opt.startAt.Some? then opt.startAt else opt.startAfter;
      var after := opt.startAt.None? && opt.startAfter.Some?;
      if opt.reverse {
        vals := RangeReverse(docs, opt, start, after);
      } else {
        vals := RangeForward(docs, opt, start, after);
      }
    }

    lemma {:induction false} LeafFilled(docs: Docs, i: nat)
      requires Sane(docs, {}) && tree.levels != [] && i < |tree.levels[0]|
      ensures Entries() != []
    {
      var m := LeafStart(tree, i);
      NextLeaf(tree, root, fields, docs, i, m);
    }

    /** Where a forward scan begins, and whether there is anything to scan. */
    method LocateForward(docs: Docs, opt: RangeOpt, start: Option<SortKey>, after: bool)
        returns (some: bool, index: Option<nat>, y: NodeId, ghost i: nat, ghost m: nat, ghost p: nat)
      requires Valid(docs) && FitsAll(fields, opt) && !opt.reverse
      requires start == (if opt.startAt.Some? then opt.startAt else opt.startAfter)
      requires after == (opt.startAt.None? && opt.startAfter.Some?)
      ensures some <==> Entries() != []
      ensures BeginsAt(fields, docs, opt, Entries(), p)
      ensures index.Some? <==> p < |Entries()|
      ensures index.Some? ==> LeafPos(y, i, m) && index.value < |nodes[y].ids| && m + index.value == p
    {
      var leaf;
      leaf, i := Search(start, after);
      some, index, y, m, p := leaf.Some?, None, 0, 0, 0;
      if leaf.None? {
        assert Entries() == [];
        return;
      }
      LeafFilled(docs, i);
      if start.Some? {
        ghost var a, b;
        if after {
          index, y, i, m, a, b := StartAfterForward(docs, leaf.value, start.value, i);
        } else {
          index, y, i, m, a, b := StartAtForward(docs, leaf.value, start.value, i);
        }
        p := if after then b else a;
        StartsFrom(fields, docs, opt, start.value, after, Entries(), a, b);
      } else {
        m := LeafStart(tree, 0);
        NextLeaf(tree, root, fields, docs, 0, m);
        index, y := Some(0), leaf.value;
      }
    }

    method RangeForward(docs: Docs, opt: RangeOpt, start: Option<SortKey>, after: bool) returns (vals: seq<DocId>)
      requires Valid(docs) && FitsAll(fields, opt) && !opt.reverse
      requires start == (if opt.startAt.Some? then opt.startAt else opt.startAfter)
      requires after == (opt.startAt.None? && opt.startAfter.Some?)
      ensures vals == Answer(fields, docs, opt, Entries())
    {
      hide *;
      ValidParts(docs);
      var some, index, y, i, m, p := LocateForward(docs, opt, start, after);
      AnswerForward(fields, docs, opt, Entries(), p);
      ScanEnds(fields, docs, opt, Entries(), p, []);
      if index.Some? { vals := GetVals(docs, y, [], index.value, opt, i, m); } else { vals := []; }
    }

    /** Where a backward scan begins: behind the first p documents. */
    method LocateReverse(docs: Docs, opt: RangeOpt, start: Option<SortKey>, after: bool)
        returns (index: Option<nat>, y: NodeId, ghost i: nat, ghost m: nat, ghost p: nat)
      requires Valid(docs) && FitsAll(fields, opt) && opt.reverse
      requires start == (if opt.startAt.Some? then opt.startAt else opt.startAfter)
      requires after == (opt.startAt.None? && opt.startAfter.Some?)
      ensures p <= |Entries()| && StopsAfter(fields, docs, opt, Entries(), p)
      ensures index.Some? <==> p > 0
      ensures index.Some? ==> LeafPos(y, i, m) && index.value < |nodes[y].ids| && m + index.value + 1 == p
    {
      var leaf;
      leaf, i := RSearch(start, after);
      index, y, m, p := None, 0, 0, 0;
      if leaf.None? {
        assert Entries() == [];
      } else if start.Some? {
        ghost var a, b;
        index, y, i, m, a, b := StartReverse(docs, leaf.value, start.value, after, i);
        p := if after then a else b;
        StartsFrom(fields, docs, opt, start.value, after, Entries(), a, b);
      } else {
        m := LeafStart(tree, i);
        NextLeaf(tree, root, fields, docs, i, m);
        index, y, p := Some(|nodes[leaf.value].ids| - 1), leaf.value, |Entries()|;
      }
    }

    method RangeReverse(docs: Docs, opt: RangeOpt, start: Option<SortKey>, after: bool) returns (vals: seq<DocId>)
      requires Valid(docs) && FitsAll(fields, opt) && opt.reverse
      requires start == (if opt.startAt.Some? then opt.startAt else opt.startAfter)
      requires after == (opt.startAt.None? && opt.startAfter.Some?)
      ensures vals == Answer(fields, docs, opt, Entries())
    {
      hide *;
      ValidParts(docs);
      var index, y, i, m, p := LocateReverse(docs, opt, start, after);
      AnswerBackward(fields, docs, opt, Entries(), p);
      ScanEnds(fields, docs, opt, Entries(), p, []);
      if index.Some? { vals := GetValsReverse(docs, y, [], index.value, opt, i, m); } else { vals := []; }
    }
  }
}
