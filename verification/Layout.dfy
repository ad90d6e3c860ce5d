/** The node records of a B+ tree and the structural invariant they satisfy.

    The invariant is stated level by level. A plan lists, from the leaves up, the
    ids of the reachable nodes of every level in left-to-right order, and gives
    every node the smallest sort key below it. It never compares sort keys, so every
    structural step (split, borrow, merge, root change) is verified without
    knowing the order of the index. */
module Layout {
  import opened Lists
  import opened SortOrder

  type NodeId = int

  /** A stored record: leaves list document ids, inner nodes list separators. */
  datatype Node =
    | Leaf(ids: seq<DocId>, parent: Option<NodeId>, prev: Option<NodeId>, next: Option<NodeId>)
    | Inner(vals: seq<SortKey>, children: seq<NodeId>,
            parent: Option<NodeId>, prev: Option<NodeId>, next: Option<NodeId>)

  type Nodes = map<NodeId, Node>

  function Size(n: Node): nat
  {
    if n.Leaf? then |n.ids| else |n.vals|
  }

  function Kids(ns: Nodes, u: NodeId): seq<NodeId>
  {
    if u in ns && ns[u].Inner? then ns[u].children else []
  }

  function Ids(ns: Nodes, u: NodeId): seq<DocId>
  {
    if u in ns && ns[u].Leaf? then ns[u].ids else []
  }

  function KidRow(ns: Nodes): NodeId -> seq<NodeId>
  {
    (u: NodeId) => Kids(ns, u)
  }

  function IdRow(ns: Nodes): NodeId -> seq<DocId>
  {
    (u: NodeId) => Ids(ns, u)
  }

  type Levels = seq<seq<NodeId>>
  type Firsts = map<NodeId, SortKey>
  type Heights = map<NodeId, nat>

  /** The documents of the index in leaf order. */
  function Contents(ns: Nodes, levels: Levels): seq<DocId>
  {
    if levels == [] then [] else Gather(IdRow(ns), levels[0])
  }

  ghost predicate InPlace(ns: Nodes, first: Firsts, height: Heights, d: nat, u: NodeId)
  {
    && u in ns && ns[u].Leaf? == (d == 0)
    && u in height && height[u] == d
    && u in first
  }

  /** The ids of level d are stored, distinct, of the right kind, and know their level. */
  ghost predicate Placed(ns: Nodes, first: Firsts, height: Heights, d: nat, xs: seq<NodeId>)
  {
    && xs != []
    && NoDup(xs)
    && forall i {:trigger xs[i]} :: 0 <= i < |xs| ==> InPlace(ns, first, height, d, xs[i])
  }

  /** Every separator is the smallest key of the child on its right. */
  ghost predicate Exact(ns: Nodes, first: Firsts, u: NodeId)
  {
    && u in ns && ns[u].Inner?
    && |ns[u].children| == |ns[u].vals| + 1
    && (forall k {:trigger ns[u].children[k]} :: 0 <= k < |ns[u].children| ==> ns[u].children[k] in first)
    && u in first && first[u] == first[ns[u].children[0]]
    && forall k {:trigger ns[u].vals[k]} :: 0 <= k < |ns[u].vals| ==> ns[u].vals[k] == first[ns[u].children[k + 1]]
  }

  /** Every child of u names u as its parent. */
  ghost predicate Adopted(ns: Nodes, u: NodeId)
  {
    forall c {:trigger c in Kids(ns, u)} :: c in Kids(ns, u) ==> c in ns && ns[c].parent == Some(u)
  }

  ghost predicate Sound(ns: Nodes, first: Firsts, xs: seq<NodeId>)
  {
    forall i {:trigger xs[i]} :: 0 <= i < |xs| ==> Exact(ns, first, xs[i]) && Adopted(ns, xs[i])
  }

  /** The nodes of `up` are the parents of `down`, in order. */
  ghost predicate Joined(ns: Nodes, first: Firsts, up: seq<NodeId>, down: seq<NodeId>)
  {
    Gather(KidRow(ns), up) == down && Sound(ns, first, up)
  }

  function At(xs: seq<NodeId>, i: int): Option<NodeId>
  {
    if 0 <= i < |xs| then Some(xs[i]) else None
  }

  ghost predicate LinkedAt(ns: Nodes, xs: seq<NodeId>, i: int)
  {
    0 <= i < |xs| ==> xs[i] in ns && ns[xs[i]].prev == At(xs, i - 1) && ns[xs[i]].next == At(xs, i + 1)
  }

  /** prev and next spell out xs. */
  ghost predicate Chained(ns: Nodes, xs: seq<NodeId>)
  {
    forall i {:trigger LinkedAt(ns, xs, i)} :: LinkedAt(ns, xs, i)
  }

  ghost predicate Rooted(ns: Nodes, root: Option<NodeId>, levels: Levels)
  {
    if levels == [] then root == None
    else
      && root.Some?
      && levels[|levels| - 1] == [root.value]
      && root.value in ns && ns[root.value].parent == None
  }

  /** The stored records together with the ghost description of the tree they form. */
  datatype Shape = Shape(ns: Nodes, levels: Levels, first: Firsts, height: Heights)

  ghost predicate LevelAt(t: Shape, d: nat)
  {
    d < |t.levels| ==> Placed(t.ns, t.first, t.height, d, t.levels[d]) && Chained(t.ns, t.levels[d])
  }

  ghost predicate JoinedAt(t: Shape, d: nat)
  {
    d + 1 < |t.levels| ==> Joined(t.ns, t.first, t.levels[d + 1], t.levels[d])
  }

  ghost predicate Tree(t: Shape, root: Option<NodeId>)
  {
    && Rooted(t.ns, root, t.levels)
    && (forall d: nat {:trigger LevelAt(t, d)} :: LevelAt(t, d))
    && (forall d: nat {:trigger JoinedAt(t, d)} :: JoinedAt(t, d))
  }

  // ----- what each part of the invariant depends on

  ghost predicate SameBody(ns: Nodes, ns': Nodes, u: NodeId)
  {
    && u in ns && u in ns'
    && if ns[u].Leaf? then
         ns'[u].Leaf? && ns[u].ids == ns'[u].ids
       else
         ns'[u].Inner? && ns[u].vals == ns'[u].vals && ns[u].children == ns'[u].children
  }

  ghost predicate SameLinks(ns: Nodes, ns': Nodes, u: NodeId)
  {
    u in ns && u in ns' && ns[u].prev == ns'[u].prev && ns[u].next == ns'[u].next
  }

  ghost predicate SameParent(ns: Nodes, ns': Nodes, u: NodeId)
  {
    u in ns && u in ns' && ns[u].parent == ns'[u].parent
  }

  ghost predicate SameFirst(first: Firsts, first': Firsts, u: NodeId)
  {
    u in first && u in first' && first[u] == first'[u]
  }

  lemma {:induction false} ExactFrame(ns: Nodes, ns': Nodes, first: Firsts, first': Firsts, u: NodeId)
    requires Exact(ns, first, u) && SameBody(ns, ns', u) && SameFirst(first, first', u)
    requires forall c :: c in Kids(ns, u) ==> SameFirst(first, first', c)
    ensures Exact(ns', first', u)
  {
    forall k | 0 <= k < |ns'[u].children| ensures SameFirst(first, first', ns'[u].children[k]) {
      assert Kids(ns, u)[k] == ns'[u].children[k] && Kids(ns, u)[k] in Kids(ns, u);
    }
  }

  lemma {:induction false} AdoptedFrame(ns: Nodes, ns': Nodes, u: NodeId)
    requires Adopted(ns, u) && SameBody(ns, ns', u)
    requires forall c :: c in Kids(ns, u) ==> SameParent(ns, ns', c)
    ensures Adopted(ns', u)
  {
    assert Kids(ns', u) == Kids(ns, u);
  }

  lemma {:induction false} SoundFrame(ns: Nodes, ns': Nodes, first: Firsts, first': Firsts, xs: seq<NodeId>)
    requires Sound(ns, first, xs)
    requires forall i :: 0 <= i < |xs| ==> SameBody(ns, ns', xs[i]) && SameFirst(first, first', xs[i])
    requires forall i, c {:trigger c in Kids(ns, xs[i])} :: 0 <= i < |xs| && c in Kids(ns, xs[i]) ==>
      SameFirst(first, first', c) && SameParent(ns, ns', c)
    ensures Sound(ns', first', xs)
  {
    forall i | 0 <= i < |xs| ensures Exact(ns', first', xs[i]) && Adopted(ns', xs[i]) {
      ExactFrame(ns, ns', first, first', xs[i]);
      AdoptedFrame(ns, ns', xs[i]);
    }
  }

  lemma {:induction false} KidsFrame(ns: Nodes, ns': Nodes, xs: seq<NodeId>)
    requires forall i :: 0 <= i < |xs| ==> SameBody(ns, ns', xs[i])
    ensures Gather(KidRow(ns'), xs) == Gather(KidRow(ns), xs)
    ensures Gather(IdRow(ns'), xs) == Gather(IdRow(ns), xs)
  {
    GatherFrame(KidRow(ns), KidRow(ns'), xs);
    GatherFrame(IdRow(ns), IdRow(ns'), xs);
  }

  lemma {:induction false} ChainedFrame(ns: Nodes, ns': Nodes, xs: seq<NodeId>)
    requires Chained(ns, xs)
    requires forall i {:trigger xs[i]} :: 0 <= i < |xs| ==> SameLinks(ns, ns', xs[i])
    ensures Chained(ns', xs)
  {
    forall i ensures LinkedAt(ns', xs, i) { assert LinkedAt(ns, xs, i); }
  }

  lemma {:induction false} SoundConcat(ns: Nodes, first: Firsts, a: seq<NodeId>, m: seq<NodeId>, b: seq<NodeId>)
    ensures Sound(ns, first, a + m + b) <==> Sound(ns, first, a) && Sound(ns, first, m) && Sound(ns, first, b)
  {
    var l := a + m + b;
    forall i | 0 <= i < |a| ensures a[i] == l[i] {}
    forall i | 0 <= i < |m| ensures m[i] == l[|a| + i] {}
    forall i | 0 <= i < |b| ensures b[i] == l[|a| + |m| + i] {}
  }

  /** u keeps everything but its parent. */
  ghost predicate Stays(t: Shape, t': Shape, u: NodeId)
  {
    && SameBody(t.ns, t'.ns, u) && SameLinks(t.ns, t'.ns, u) && SameFirst(t.first, t'.first, u)
    && u in t.height && u in t'.height && t'.height[u] == t.height[u]
  }

  /** A level survives when its nodes keep their kind, links, smallest key and height. */
  lemma {:induction false} LevelKept(t: Shape, t': Shape, d: nat)
    requires d < |t.levels| && d < |t'.levels| && t'.levels[d] == t.levels[d] && LevelAt(t, d)
    requires forall u {:trigger Stays(t, t', u)} :: u in t.levels[d] ==> Stays(t, t', u)
    ensures LevelAt(t', d)
  {
    var xs := t.levels[d];
    forall i | 0 <= i < |xs| ensures InPlace(t'.ns, t'.first, t'.height, d, xs[i]) && SameLinks(t.ns, t'.ns, xs[i]) {
      assert Stays(t, t', xs[i]);
    }
    ChainedFrame(t.ns, t'.ns, xs);
  }

  /** Two levels stay joined when the children keep their parent, too. */
  lemma {:induction false} JoinKept(t: Shape, t': Shape, d: nat)
    requires d + 1 < |t.levels| && d + 1 < |t'.levels| && t'.levels[d] == t.levels[d]
    requires t'.levels[d + 1] == t.levels[d + 1]
    requires JoinedAt(t, d)
    requires forall u {:trigger Stays(t, t', u)} :: u in t.levels[d + 1] ==> Stays(t, t', u)
    requires forall u {:trigger Stays(t, t', u)} :: u in t.levels[d] ==> Stays(t, t', u) && SameParent(t.ns, t'.ns, u)
    ensures JoinedAt(t', d)
  {
    var up := t.levels[d + 1];
    forall i | 0 <= i < |up| ensures SameBody(t.ns, t'.ns, up[i]) && SameFirst(t.first, t'.first, up[i]) {
      assert Stays(t, t', up[i]);
    }
    forall i, c | 0 <= i < |up| && c in Kids(t.ns, up[i])
        ensures SameFirst(t.first, t'.first, c) && SameParent(t.ns, t'.ns, c) {
      GatherMember(KidRow(t.ns), up, i, c);
      assert Stays(t, t', c);
    }
    SoundFrame(t.ns, t'.ns, t.first, t'.first, up);
    KidsFrame(t.ns, t'.ns, up);
  }
}
