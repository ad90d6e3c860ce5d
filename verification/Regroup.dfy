/** One local rewrite covers every split, borrow and merge: under one parent, a
    stretch of siblings is replaced by a stretch holding the same rows. */
module Regroup {
  import opened Lists
  import opened SortOrder
  import opened Layout

  /** On level d, under parent q, the siblings `was` become `now`. The parent keeps
      the children `left` and `right`; upA and upB are the rest of its own level,
      a and b the rest of level d. */
  datatype Site = Site(d: nat, q: NodeId, was: seq<NodeId>, now: seq<NodeId>,
                       left: seq<NodeId>, right: seq<NodeId>, upA: seq<NodeId>, upB: seq<NodeId>,
                       a: seq<NodeId>, b: seq<NodeId>)

  /** a and b are the children of the other parents, and the untouched ones of q. */
  ghost predicate Opened(ns: Nodes, s: Site)
  {
    && s.a == Gather(KidRow(ns), s.upA) + s.left
    && s.b == s.right + Gather(KidRow(ns), s.upB)
  }

  ghost predicate InSite(s: Site, u: NodeId)
  {
    u in s.was || u in s.now
  }

  /** What stays the same away from the site and its parent. */
  ghost predicate Local(t: Shape, t': Shape, s: Site)
  {
    && (forall u {:trigger SameBody(t.ns, t'.ns, u)} :: u in t.ns && !InSite(s, u) && u != s.q ==>
      SameBody(t.ns, t'.ns, u))
    && (forall u {:trigger SameParent(t.ns, t'.ns, u)} ::
          u in t.ns && !InSite(s, u) && (t.ns[u].parent.Some? ==> !InSite(s, t.ns[u].parent.value)) ==>
              SameParent(t.ns, t'.ns, u))
    && (forall u {:trigger SameLinks(t.ns, t'.ns, u)} ::
          u in t.ns && u in t.height && t.height[u] != s.d ==> SameLinks(t.ns, t'.ns, u))
    && (forall u {:trigger SameFirst(t.first, t'.first, u)} :: u in t.first && !InSite(s, u) ==>
      SameFirst(t.first, t'.first, u))
    && (forall u {:trigger u in t'.height} {:trigger u in t.height} ::
          u in t.height ==> u in t'.height && t'.height[u] == t.height[u])
  }

  ghost predicate Among(ns: Nodes, s: Site)
  {
    forall k {:trigger s.now[k]} :: 0 <= k < |s.now| ==> s.now[k] in s.was || s.now[k] !in ns
  }

  /** What the new siblings satisfy. */
  ghost predicate Group(ns: Nodes, t': Shape, s: Site)
  {
    && s.now != [] && NoDup(s.now)
    && (forall k {:trigger s.now[k]} :: 0 <= k < |s.now| ==>
          InPlace(t'.ns, t'.first, t'.height, s.d, s.now[k]) && t'.ns[s.now[k]].parent == Some(s.q))
    && (s.d > 0 ==> Sound(t'.ns, t'.first, s.now))
    && Gather(KidRow(t'.ns), s.now) == Gather(KidRow(ns), s.was)
    && Gather(IdRow(t'.ns), s.now) == Gather(IdRow(ns), s.was)
  }

  ghost predicate Clear(xs: seq<NodeId>, s: Site)
  {
    forall c {:trigger InSite(s, c)} {:trigger c in xs} :: c in xs ==> !InSite(s, c)
  }

  lemma {:induction false} RestApart(t: Shape, s: Site)
    requires Placed(t.ns, t.first, t.height, s.d, s.a + s.was + s.b) && Among(t.ns, s)
    ensures Clear(s.a, s) && Clear(s.b, s)
    ensures forall i {:trigger s.a[i]} :: 0 <= i < |s.a| ==> InPlace(t.ns, t.first, t.height, s.d, s.a[i])
    ensures forall i {:trigger s.b[i]} :: 0 <= i < |s.b| ==> InPlace(t.ns, t.first, t.height, s.d, s.b[i])
  {
    var l := s.a + s.was + s.b;
    NoDupParts(s.a, s.was, s.b);
    forall i | 0 <= i < |s.a| ensures InPlace(t.ns, t.first, t.height, s.d, s.a[i]) && !InSite(s, s.a[i]) {
      assert s.a[i] == l[i];
    }
    forall i | 0 <= i < |s.b| ensures InPlace(t.ns, t.first, t.height, s.d, s.b[i]) && !InSite(s, s.b[i]) {
      assert s.b[i] == l[|s.a| + |s.was| + i];
    }
  }

  lemma {:induction false} StaysInPlace(t: Shape, t': Shape, s: Site, e: nat, u: NodeId)
    requires Local(t, t', s) && InPlace(t.ns, t.first, t.height, e, u) && !InSite(s, u)
    requires u == s.q ==> s.q in t'.ns && t'.ns[s.q].Leaf? == t.ns[s.q].Leaf?
    ensures InPlace(t'.ns, t'.first, t'.height, e, u)
  {
    assert SameFirst(t.first, t'.first, u);
    if u != s.q { assert SameBody(t.ns, t'.ns, u); }
  }

  lemma {:induction false} PlacedThere(t: Shape, t': Shape, s: Site)
    requires Placed(t.ns, t.first, t.height, s.d, s.a + s.was + s.b) && Among(t.ns, s)
    requires Local(t, t', s) && s.q !in s.a && s.q !in s.b && Group(t.ns, t', s)
    ensures Placed(t'.ns, t'.first, t'.height, s.d, s.a + s.now + s.b)
  {
    RestApart(t, s);
    NoDupPatch(s.a, s.was, s.now, s.b);
    var l' := s.a + s.now + s.b;
    forall i | 0 <= i < |l'| ensures InPlace(t'.ns, t'.first, t'.height, s.d, l'[i]) {
      if i < |s.a| {
        assert l'[i] == s.a[i];
        StaysInPlace(t, t', s, s.d, s.a[i]);
      } else if i < |s.a| + |s.now| {
        assert l'[i] == s.now[i - |s.a|];
      } else {
        var u := s.b[i - |s.a| - |s.now|];
        assert l'[i] == u;
        StaysInPlace(t, t', s, s.d, u);
      }
    }
  }

  /** Any other level keeps its place. */
  lemma {:induction false} PlacedElsewhere(t: Shape, t': Shape, s: Site, e: nat, xs: seq<NodeId>)
    requires Placed(t.ns, t.first, t.height, e, xs) && Local(t, t', s) && Clear(xs, s)
    requires s.q in t.ns && s.q in t'.ns && t'.ns[s.q].Leaf? == t.ns[s.q].Leaf?
    ensures Placed(t'.ns, t'.first, t'.height, e, xs)
  {
    forall i | 0 <= i < |xs| ensures InPlace(t'.ns, t'.first, t'.height, e, xs[i]) {
      StaysInPlace(t, t', s, e, xs[i]);
    }
  }

  /** Parents away from the site still match their children. */
  lemma {:induction false} SoundAway(t: Shape, t': Shape, s: Site, xs: seq<NodeId>)
    requires Sound(t.ns, t.first, xs) && Local(t, t', s) && Clear(xs, s) && s.q !in xs
    requires Clear(Gather(KidRow(t.ns), xs), s)
    ensures Sound(t'.ns, t'.first, xs)
    ensures Gather(KidRow(t'.ns), xs) == Gather(KidRow(t.ns), xs)
    ensures Gather(IdRow(t'.ns), xs) == Gather(IdRow(t.ns), xs)
  {
    forall i | 0 <= i < |xs| ensures SameBody(t.ns, t'.ns, xs[i]) && SameFirst(t.first, t'.first, xs[i]) {
      assert Exact(t.ns, t.first, xs[i]);
    }
    forall i, c | 0 <= i < |xs| && c in Kids(t.ns, xs[i])
      ensures SameFirst(t.first, t'.first, c) && SameParent(t.ns, t'.ns, c) {
      assert Exact(t.ns, t.first, xs[i]) && Adopted(t.ns, xs[i]);
      GatherMember(KidRow(t.ns), xs, i, c);
    }
    SoundFrame(t.ns, t'.ns, t.first, t'.first, xs);
    KidsFrame(t.ns, t'.ns, xs);
  }

  /** The level below: the new siblings take over the children of the old ones. */
  lemma {:induction false} JoinedBelow(t: Shape, t': Shape, s: Site, low: seq<NodeId>)
    requires s.d > 0 && Placed(t.ns, t.first, t.height, s.d, s.a + s.was + s.b) && Among(t.ns, s)
    requires Local(t, t', s) && s.q !in s.a && s.q !in s.b && Group(t.ns, t', s)
    requires Clear(low, s) && Joined(t.ns, t.first, s.a + s.was + s.b, low)
    ensures Joined(t'.ns, t'.first, s.a + s.now + s.b, low)
  {
    RestApart(t, s);
    SoundConcat(t.ns, t.first, s.a, s.was, s.b);
    GatherSplit(KidRow(t.ns), s.a, s.was, s.b);
    SoundAway(t, t', s, s.a);
    SoundAway(t, t', s, s.b);
    SoundConcat(t'.ns, t'.first, s.a, s.now, s.b);
    GatherSplit(KidRow(t'.ns), s.a, s.now, s.b);
  }

  lemma {:induction false} AboveParts(t: Shape, s: Site)
    requires NoDup(s.upA + [s.q] + s.upB) && Sound(t.ns, t.first, s.upA + [s.q] + s.upB)
    ensures Sound(t.ns, t.first, s.upA) && Sound(t.ns, t.first, s.upB) && Adopted(t.ns, s.q)
    ensures s.q !in s.upA && s.q !in s.upB
  {
    NoDupParts(s.upA, [s.q], s.upB);
    SoundConcat(t.ns, t.first, s.upA, [s.q], s.upB);
    assert Sound(t.ns, t.first, [s.q]) && [s.q][0] == s.q;
  }

  lemma {:induction false} AboveTogether(ns: Nodes, first: Firsts, s: Site, mid: seq<NodeId>)
    requires Sound(ns, first, s.upA) && Sound(ns, first, s.upB) && Exact(ns, first, s.q) && Adopted(ns, s.q)
    requires Kids(ns, s.q) == s.left + mid + s.right && Opened(ns, s)
    ensures Joined(ns, first, s.upA + [s.q] + s.upB, s.a + mid + s.b)
  {
    assert Sound(ns, first, [s.q]);
    SoundConcat(ns, first, s.upA, [s.q], s.upB);
    GatherSplit(KidRow(ns), s.upA, [s.q], s.upB);
    GatherOne(KidRow(ns), s.q);
    Regrouped(Gather(KidRow(ns), s.upA), s.left, mid, s.right, Gather(KidRow(ns), s.upB));
  }

  lemma {:induction false} OwnerAdopts(t: Shape, t': Shape, s: Site)
    requires Local(t, t', s) && Group(t.ns, t', s) && Clear(s.left, s) && Clear(s.right, s)
    requires Kids(t.ns, s.q) == s.left + s.was + s.right && !InSite(s, s.q) && Adopted(t.ns, s.q)
    requires Kids(t'.ns, s.q) == s.left + s.now + s.right
    ensures Adopted(t'.ns, s.q)
  {
    forall c | c in Kids(t'.ns, s.q) ensures c in t'.ns && t'.ns[c].parent == Some(s.q) {
      if c !in s.now {
        assert c in s.left || c in s.right;
        assert c in Kids(t.ns, s.q) && SameParent(t.ns, t'.ns, c);
      }
    }
  }

  /** The level above: the parent lists the new siblings where it listed the old ones. */
  lemma {:induction false} JoinedAbove(t: Shape, t': Shape, s: Site)
    requires Among(t.ns, s) && Local(t, t', s) && Group(t.ns, t', s)
    requires NoDup(s.upA + [s.q] + s.upB) && Sound(t.ns, t.first, s.upA + [s.q] + s.upB)
    requires Clear(s.upA, s) && Clear(s.upB, s) && !InSite(s, s.q)
    requires Clear(Gather(KidRow(t.ns), s.upA), s) && Clear(Gather(KidRow(t.ns), s.upB), s)
    requires Clear(s.left, s) && Clear(s.right, s)
    requires Kids(t.ns, s.q) == s.left + s.was + s.right
    requires Kids(t'.ns, s.q) == s.left + s.now + s.right && Exact(t'.ns, t'.first, s.q)
    requires Opened(t.ns, s)
    ensures Joined(t'.ns, t'.first, s.upA + [s.q] + s.upB, s.a + s.now + s.b)
  {
    AboveParts(t, s);
    SoundAway(t, t', s, s.upA);
    SoundAway(t, t', s, s.upB);
    OwnerAdopts(t, t', s);
    AboveTogether(t'.ns, t'.first, s, s.now);
  }

  /** Two levels away from the site. */
  lemma {:induction false} JoinedElsewhere(t: Shape, t': Shape, s: Site, up: seq<NodeId>, down: seq<NodeId>)
    requires Joined(t.ns, t.first, up, down) && Local(t, t', s)
    requires Clear(up, s) && Clear(down, s) && s.q !in up
    ensures Joined(t'.ns, t'.first, up, down)
  {
    SoundAway(t, t', s, up);
  }

  lemma {:induction false} ChainedElsewhere(t: Shape, t': Shape, s: Site, e: nat, xs: seq<NodeId>)
    requires Placed(t.ns, t.first, t.height, e, xs) && Chained(t.ns, xs) && Local(t, t', s) && e != s.d
    ensures Chained(t'.ns, xs)
  {
    forall i | 0 <= i < |xs| ensures SameLinks(t.ns, t'.ns, xs[i]) {}
    ChainedFrame(t.ns, t'.ns, xs);
  }

  lemma {:induction false} OtherLevel(t: Shape, s: Site, e: nat, xs: seq<NodeId>)
    requires Placed(t.ns, t.first, t.height, s.d, s.a + s.was + s.b) && Among(t.ns, s)
    requires Placed(t.ns, t.first, t.height, e, xs) && e != s.d
    ensures Clear(xs, s)
  {
    var l := s.a + s.was + s.b;
    forall i | 0 <= i < |s.was| ensures InPlace(t.ns, t.first, t.height, s.d, s.was[i]) {
      assert s.was[i] == l[|s.a| + i];
    }
  }

  /** The rewrite, as one step from one tree to another. */
  ghost predicate Rewrites(t: Shape, t': Shape, s: Site)
  {
    && s.d + 1 < |t.levels| && t.levels[s.d + 1] == s.upA + [s.q] + s.upB && Opened(t.ns, s)
    && t'.levels == t.levels[s.d := s.a + s.now + s.b]
    && Kids(t.ns, s.q) == s.left + s.was + s.right
    && Kids(t'.ns, s.q) == s.left + s.now + s.right && Exact(t'.ns, t'.first, s.q)
    && Among(t.ns, s) && Local(t, t', s) && Group(t.ns, t', s)
    && Chained(t'.ns, t'.levels[s.d])
  }

  lemma {:induction false} LevelAround(ns: Nodes, first: Firsts, s: Site, down: seq<NodeId>)
    requires Joined(ns, first, s.upA + [s.q] + s.upB, down) && Kids(ns, s.q) == s.left + s.was + s.right
    requires Opened(ns, s)
    ensures down == s.a + s.was + s.b
  {
    GatherSplit(KidRow(ns), s.upA, [s.q], s.upB);
    GatherOne(KidRow(ns), s.q);
    Regrouped(Gather(KidRow(ns), s.upA), s.left, s.was, s.right, Gather(KidRow(ns), s.upB));
  }

  lemma {:induction false} SiteFacts(t: Shape, t': Shape, root: Option<NodeId>, s: Site)
    requires Tree(t, root) && Rewrites(t, t', s)
    ensures Placed(t.ns, t.first, t.height, s.d, t.levels[s.d])
    ensures Placed(t.ns, t.first, t.height, s.d + 1, t.levels[s.d + 1])
    ensures Joined(t.ns, t.first, t.levels[s.d + 1], t.levels[s.d])
    ensures t.levels[s.d] == s.a + s.was + s.b
    ensures InPlace(t.ns, t.first, t.height, s.d + 1, s.q) && !InSite(s, s.q) && s.q !in t.levels[s.d]
    ensures s.q in t'.ns && t'.ns[s.q].Inner?
  {
    assert JoinedAt(t, s.d) && LevelAt(t, s.d) && LevelAt(t, s.d + 1);
    var up := t.levels[s.d + 1];
    assert up[|s.upA|] == s.q;
    LevelAround(t.ns, t.first, s, t.levels[s.d]);
    OtherLevel(t, s, s.d + 1, up);
    assert s.q in up;
  }

  lemma {:induction false} RewriteAtLevel(t: Shape, t': Shape, root: Option<NodeId>, s: Site)
    requires Tree(t, root) && Rewrites(t, t', s)
    ensures LevelAt(t', s.d)
  {
    SiteFacts(t, t', root, s);
    PlacedThere(t, t', s);
  }

  lemma {:induction false} LevelIsClear(t: Shape, t': Shape, root: Option<NodeId>, s: Site, e: nat)
    requires Tree(t, root) && Rewrites(t, t', s) && e < |t.levels| && e != s.d
    ensures Clear(t.levels[e], s)
  {
    SiteFacts(t, t', root, s);
    assert LevelAt(t, e);
    OtherLevel(t, s, e, t.levels[e]);
  }

  lemma {:induction false} RewriteOtherLevel(t: Shape, t': Shape, root: Option<NodeId>, s: Site, e: nat)
    requires Tree(t, root) && Rewrites(t, t', s) && e != s.d
    ensures LevelAt(t', e)
  {
    if e < |t.levels| {
      SiteFacts(t, t', root, s);
      LevelIsClear(t, t', root, s, e);
      assert LevelAt(t, e);
      PlacedElsewhere(t, t', s, e, t.levels[e]);
      ChainedElsewhere(t, t', s, e, t.levels[e]);
    }
  }

  lemma {:induction false} RewriteBelow(t: Shape, t': Shape, root: Option<NodeId>, s: Site, e: nat)
    requires Tree(t, root) && Rewrites(t, t', s) && s.d == e + 1
    ensures JoinedAt(t', e)
  {
    SiteFacts(t, t', root, s);
    LevelIsClear(t, t', root, s, e);
    assert JoinedAt(t, e);
    JoinedBelow(t, t', s, t.levels[e]);
  }

  lemma {:induction false} RewriteAbove(t: Shape, t': Shape, root: Option<NodeId>, s: Site)
    requires Tree(t, root) && Rewrites(t, t', s)
    ensures JoinedAt(t', s.d)
  {
    SiteFacts(t, t', root, s);
    LevelIsClear(t, t', root, s, s.d + 1);
    RestApart(t, s);
    JoinedAbove(t, t', s);
  }

  lemma {:induction false} OwnerElsewhere(t: Shape, t': Shape, root: Option<NodeId>, s: Site, e: nat)
    requires Tree(t, root) && Rewrites(t, t', s) && e < |t.levels| && e != s.d + 1
    ensures s.q !in t.levels[e]
  {
    SiteFacts(t, t', root, s);
    assert LevelAt(t, e);
  }

  lemma {:induction false} RewriteFar(t: Shape, t': Shape, root: Option<NodeId>, s: Site, e: nat)
    requires Tree(t, root) && Rewrites(t, t', s) && e != s.d && e + 1 != s.d
    ensures JoinedAt(t', e)
  {
    if e + 1 < |t.levels| {
      LevelIsClear(t, t', root, s, e);
      LevelIsClear(t, t', root, s, e + 1);
      OwnerElsewhere(t, t', root, s, e + 1);
      assert JoinedAt(t, e);
      JoinedElsewhere(t, t', s, t.levels[e + 1], t.levels[e]);
    }
  }

  lemma {:induction false} RewriteRoot(t: Shape, t': Shape, root: Option<NodeId>, s: Site)
    requires Tree(t, root) && Rewrites(t, t', s)
    ensures Rooted(t'.ns, root, t'.levels)
  {
    var top := |t.levels| - 1;
    LevelIsClear(t, t', root, s, top);
    assert root.value in t.levels[top];
    assert SameParent(t.ns, t'.ns, root.value);
  }

  lemma {:induction false} IdsAway(t: Shape, t': Shape, s: Site, xs: seq<NodeId>)
    requires Local(t, t', s) && Clear(xs, s) && s.q !in xs
    requires forall i {:trigger xs[i]} :: 0 <= i < |xs| ==> xs[i] in t.ns
    ensures Gather(IdRow(t'.ns), xs) == Gather(IdRow(t.ns), xs)
  {
    forall i | 0 <= i < |xs| ensures SameBody(t.ns, t'.ns, xs[i]) {}
    KidsFrame(t.ns, t'.ns, xs);
  }

  lemma {:induction false} RewriteContents(t: Shape, t': Shape, root: Option<NodeId>, s: Site)
    requires Tree(t, root) && Rewrites(t, t', s)
    ensures Contents(t'.ns, t'.levels) == Contents(t.ns, t.levels)
  {
    SiteFacts(t, t', root, s);
    assert LevelAt(t, 0);
    if s.d > 0 {
      LevelIsClear(t, t', root, s, 0);
      IdsAway(t, t', s, t.levels[0]);
    } else {
      var a, b := s.a, s.b;
      RestApart(t, s);
      IdsAway(t, t', s, a);
      IdsAway(t, t', s, b);
      GatherSplit(IdRow(t.ns), a, s.was, b);
      GatherSplit(IdRow(t'.ns), a, s.now, b);
    }
  }

  lemma {:induction false} RewriteJoin(t: Shape, t': Shape, root: Option<NodeId>, s: Site, e: nat)
    requires Tree(t, root) && Rewrites(t, t', s)
    ensures JoinedAt(t', e)
  {
    if e == s.d { RewriteAbove(t, t', root, s); }
    else if e + 1 == s.d { RewriteBelow(t, t', root, s, e); }
    else { RewriteFar(t, t', root, s, e); }
  }

  lemma {:induction false} RewriteLevel(t: Shape, t': Shape, root: Option<NodeId>, s: Site, e: nat)
    requires Tree(t, root) && Rewrites(t, t', s)
    ensures LevelAt(t', e)
  {
    if e == s.d { RewriteAtLevel(t, t', root, s); } else { RewriteOtherLevel(t, t', root, s, e); }
  }

  /** The rewrite leads from a tree to a tree with the same documents in the same order. */
  lemma {:induction false} RewriteKeepsTree(t: Shape, t': Shape, root: Option<NodeId>, s: Site)
    requires Tree(t, root) && Rewrites(t, t', s)
    ensures Tree(t', root)
    ensures Contents(t'.ns, t'.levels) == Contents(t.ns, t.levels)
  {
    RewriteRoot(t, t', root, s);
    RewriteContents(t, t', root, s);
    forall e: nat ensures LevelAt(t', e) { RewriteLevel(t, t', root, s, e); }
    forall e: nat ensures JoinedAt(t', e) { RewriteJoin(t, t', root, s, e); }
  }
}
