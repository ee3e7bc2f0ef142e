/** What phi placement merges, compared with the iterated dominance frontier. */
module PlacementFrontier {
  import opened Graphs
  import opened Dominators
  import opened DominatorTree
  import opened PhiPlacement

  /** Every merged block lies in the iterated dominance frontier of the blocks that write. */
  lemma MergedInFrontier(y: Task, b: nat)
    requires DomTree(y.G, y.D) && Joined(y, b)
    ensures InIteratedFrontier(y.G, y.W, b)
  {
    var c :| |c| > 1 && c[0] in y.W && c[|c| - 1] == b && FoundChain(y, c);
    ChainInFrontier(y, c);
  }

  // ----- when the whole frontier is merged

  /** b is found from x, or from what was found from x. */
  ghost predicate JoinedFrom(y: Task, x: nat, b: nat) {
    exists c :: |c| > 1 && c[0] == x && c[|c| - 1] == b && FoundChain(y, c)
  }

  /** The immediate dominator of w is no predecessor of w: the walk from it does not get to w. */
  ghost predicate Gap(y: Task, w: nat) {
    0 < w < |y.G| && y.D[w] >= 0 && !Edge(y.G, y.D[w], w)
  }

  /** b is found from w, and it is not deeper than the immediate dominator of w. */
  ghost predicate FoundAbove(y: Task, w: nat, b: nat)
    requires Gap(y, w)
  {
    b < |y.G| && DepthOf(y, b) <= DepthOf(y, y.D[w]) && Found(y.G, y.D, w, b)
  }

  /** What a single walk finds from below a gap, and is not deeper than its upper end, is joined
      from there too. */
  ghost predicate GapsCovered(y: Task) {
    forall w: nat, b: nat {:trigger Found(y.G, y.D, w, b)} ::
        Gap(y, w) && FoundAbove(y, w, b) ==> JoinedFrom(y, y.D[w], b)
  }

  lemma ChainTail(y: Task, c: seq<nat>)
    requires |c| > 1 && FoundChain(y, c)
    ensures FoundChain(y, c[1..]) && Found(y.G, y.D, c[0], c[1])
  {
    forall i | 0 < i < |c[1..]| ensures Found(y.G, y.D, c[1..][i - 1], c[1..][i]) {
      assert c[i + 1] == c[1..][i];
    }
    assert c[1] == c[1];
  }

  /** What is joined from a child of x, and is not deeper than x, is joined from x. */
  lemma {:induction false} ChildJoined(y: Task, x: nat, c: seq<nat>)
    requires DomTree(y.G, y.D) && GapsCovered(y) && |c| > 1 && FoundChain(y, c) && x < |y.G|
    requires c[0] < |y.G| && y.D[c[0]] == x && c[|c| - 1] < |y.G| && DepthOf(y, c[|c| - 1]) <= DepthOf(y, x)
    ensures JoinedFrom(y, x, c[|c| - 1])
    decreases |c|
  {
    var w, b := c[0], c[|c| - 1];
    ChainTail(y, c);
    FoundBelow(y, x, w, c[1]);
    if DepthOf(y, c[1]) > DepthOf(y, x) {
      ChildJoined(y, x, c[1..]);
    } else {
      if !Edge(y.G, x, w) {
        assert Gap(y, w) && FoundAbove(y, w, c[1]);
      } else {
        var v: nat :| Walk(y.G, y.D, w, v) && Edge(y.G, v, c[1]) && y.D[c[1]] != v;
        WalkUp(y.G, y.D, x, w, v);
        assert Found(y.G, y.D, x, c[1]);
        assert FoundChain(y, [x, c[1]]) && [x, c[1]][1] == c[1];
      }
      assert JoinedFrom(y, x, c[1]);
      JoinedOn(y, x, c[1..]);
    }
  }

  /** A chain goes on behind what is joined. */
  lemma JoinedOn(y: Task, x: nat, c: seq<nat>)
    requires c != [] && FoundChain(y, c) && JoinedFrom(y, x, c[0])
    ensures JoinedFrom(y, x, c[|c| - 1])
  {
    var a :| |a| > 1 && a[0] == x && a[|a| - 1] == c[0] && FoundChain(y, a);
    var d := a[..|a| - 1] + c;
    forall i | 0 < i < |d| ensures Found(y.G, y.D, d[i - 1], d[i]) {
      if i < |a| {
        assert a[i - 1] == d[i - 1] && a[i] == d[i];
      } else {
        assert c[i - |a|] == d[i - 1] && c[i - |a| + 1] == d[i];
      }
    }
    assert FoundChain(y, d) && d[|d| - 1] == c[|c| - 1];
  }

  /** When the gaps are covered, the frontier of x is joined from x. */
  lemma {:induction false} FrontierJoined(y: Task, x: nat, v: nat, b: nat)
    requires DomTree(y.G, y.D) && GapsCovered(y) && v < |y.G| && OnChain(y.D, x, v) && Edge(y.G, v, b)
    requires !StrictlyDominates(y.G, x, b)
    ensures JoinedFrom(y, x, b)
    decreases v - x, if x <= v then 0 else 1
  {
    ChainBelow(y.D, x, v);
    FrontierDepth(y.G, y.D, x, v, b);
    if x == v {
      if b > 0 { assert Parent(y.G, y.D, b); }
      assert Found(y.G, y.D, x, b);
      var c := [x, b];
      assert FoundChain(y, c) && c[|c| - 1] == b;
    } else {
      var w := ChildTowards(y.D, x, v);
      ChainBelow(y.D, w, v);
      FrontierDepth(y.G, y.D, w, v, b);
      FrontierJoined(y, w, v, b);
      var c :| |c| > 1 && c[0] == w && c[|c| - 1] == b && FoundChain(y, c);
      ChildJoined(y, x, c);
    }
  }

  lemma {:induction false} JoinedMore(y: Task, x: nat, c: seq<nat>)
    requires |c| > 0 && FoundChain(y, c) && (c[0] in y.W || Joined(y, c[0])) && (|c| > 1 || Joined(y, c[0]))
    ensures Joined(y, c[|c| - 1])
    decreases |c|
  {
    if |c| > 1 {
      ChainTail(y, c);
      JoinedNext(y, c[0], c[1]);
      JoinedMore(y, x, c[1..]);
    }
  }

  /** When the gaps are covered, the whole iterated dominance frontier is merged. */
  lemma {:induction false} FrontierMerged(y: Task, c: seq<nat>)
    requires DomTree(y.G, y.D) && GapsCovered(y) && |c| > 1 && c[0] in y.W && FrontierChain(y.G, c)
    ensures Joined(y, c[|c| - 1])
    decreases |c|
  {
    var n := |c| - 1;
    if n > 1 {
      forall i | 0 < i < n ensures InFrontier(y.G, c[..n][i - 1], c[..n][i]) { assert c[i] == c[..n][i]; }
      FrontierMerged(y, c[..n]);
    }
    var x, b := c[n - 1], c[n];
    assert InFrontier(y.G, x, b);
    var v: nat :| Dominates(y.G, x, v) && Edge(y.G, v, b);
    assert v < |y.G|;
    ChainIsDominators(y.G, y.D, x, v);
    FrontierJoined(y, x, v, b);
    var d :| |d| > 1 && d[0] == x && d[|d| - 1] == b && FoundChain(y, d);
    JoinedMore(y, x, d);
  }

  // ----- and only then

  lemma ChainInFrontier(y: Task, c: seq<nat>)
    requires DomTree(y.G, y.D) && FoundChain(y, c)
    ensures FrontierChain(y.G, c)
  {
    forall i | 0 < i < |c| ensures InFrontier(y.G, c[i - 1], c[i]) { FoundInFrontier(y.G, y.D, c[i - 1], c[i]); }
  }

  /** What is found from a child of x lies in the frontier of x, or is another child of x. */
  lemma FoundBelow(y: Task, x: nat, w: nat, b: nat)
    requires DomTree(y.G, y.D) && x < |y.G| && w < |y.G| && y.D[w] == x && Found(y.G, y.D, w, b)
    ensures b < |y.G| && if DepthOf(y, b) <= DepthOf(y, x) then InFrontier(y.G, x, b) else y.D[b] == x
  {
    var v: nat :| Walk(y.G, y.D, w, v) && Edge(y.G, v, b) && y.D[b] != v;
    WalkIsChain(y.G, y.D, w, v);
    ChainTrans(y.D, x, w, v);
    ChainIsDominators(y.G, y.D, x, v);
    FrontierDepth(y.G, y.D, x, v, b);
    if DepthOf(y, b) > DepthOf(y, x) { SameLevel(y.G, y.D, x, v, b); }
  }

  /** For every choice of writing blocks, the whole iterated frontier is merged. */
  ghost predicate AlwaysWhole(y: Task) {
    forall W: set<nat>, b: nat {:trigger InIteratedFrontier(y.G, W, b)} :: (forall w :: w in W ==> w < |y.G|) ==>
      InIteratedFrontier(y.G, W, b) ==> Joined(Task(y.G, y.D, W), b)
  }

  /** Placement merges the whole iterated frontier, whichever blocks write, exactly when the gaps
      are covered, which is a question about single walks down the dominator tree. */
  lemma WholeExactly(y: Task)
    requires DomTree(y.G, y.D)
    ensures AlwaysWhole(y) <==> GapsCovered(y)
  {
    if GapsCovered(y) {
      forall W: set<nat>, b: nat | (forall w :: w in W ==> w < |y.G|) && InIteratedFrontier(y.G, W, b)
        ensures Joined(Task(y.G, y.D, W), b) {
        var c :| |c| > 1 && c[0] in W && c[|c| - 1] == b && FrontierChain(y.G, c);
        var z: Task := RawTask.Task(y.G, y.D, W);
        SameGaps(y, z);
        FrontierMerged(z, c);
      }
    }
    if AlwaysWhole(y) {
      forall w: nat, b: nat | Gap(y, w) && FoundAbove(y, w, b) ensures JoinedFrom(y, y.D[w], b) {
        FoundBelow(y, y.D[w], w, b);
        var d := [y.D[w] as nat, b];
        assert FrontierChain(y.G, d) && d[|d| - 1] == b;
        var z: Task := RawTask.Task(y.G, y.D, {y.D[w] as nat});
        assert InIteratedFrontier(y.G, z.W, b) && Joined(z, b);
        SingleJoined(y, z, y.D[w], b);
      }
    }
  }

  lemma SingleJoined(y: Task, z: Task, x: nat, b: nat)
    requires z == RawTask.Task(y.G, y.D, {x}) && Joined(z, b)
    ensures JoinedFrom(y, x, b)
  {
    var c :| |c| > 1 && c[0] in z.W && c[|c| - 1] == b && FoundChain(z, c);
    assert FoundChain(y, c);
  }

  lemma SameGaps(y: Task, z: Task)
    requires GapsCovered(y) && z.G == y.G && z.D == y.D
    ensures GapsCovered(z)
  {
    forall w: nat, b: nat | Gap(z, w) && FoundAbove(z, w, b) ensures JoinedFrom(z, z.D[w], b) {
      assert Gap(y, w) && FoundAbove(y, w, b);
      SameJoined(y, z, y.D[w], b);
    }
  }

  lemma SameJoined(y: Task, z: Task, x: nat, b: nat)
    requires z.G == y.G && z.D == y.D
    ensures JoinedFrom(y, x, b) ==> JoinedFrom(z, x, b)
  {
    if JoinedFrom(y, x, b) {
      var c :| |c| > 1 && c[0] == x && c[|c| - 1] == b && FoundChain(y, c);
      assert FoundChain(z, c);
    }
  }

  // ----- a graph with a gap that is not covered

  /** A loop around a branch whose two sides meet again. */
  const LOOP: Graph := [[1], [2, 3], [4], [4], [1]]
  const LOOP_DOMS: DomMap := [-1, 0, 1, 1, 1]

  lemma LoopEdges()
    ensures Edge(LOOP, 0, 1) && Edge(LOOP, 1, 2) && Edge(LOOP, 1, 3) && Edge(LOOP, 2, 4) && Edge(LOOP, 3, 4) &&
        Edge(LOOP, 4, 1)
    ensures ReversePostorder(LOOP)
  {
    assert LOOP[0] == [1] && LOOP[1] == [2, 3] && LOOP[2] == [4] && LOOP[3] == [4] && LOOP[4] == [1];
    assert Edge(LOOP, 0, 1) && Edge(LOOP, 1, 2) && Edge(LOOP, 1, 3) && Edge(LOOP, 2, 4) && Edge(LOOP, 3, 4) &&
        Edge(LOOP, 4, 1);
    assert EarlierPredecessor(LOOP, 1) && EarlierPredecessor(LOOP, 2) && EarlierPredecessor(LOOP, 3) &&
        EarlierPredecessor(LOOP, 4);
  }

  lemma LoopThroughOne(v: nat)
    ensures v != 0 ==> Dominates(LOOP, 1, v)
    ensures Dominates(LOOP, 0, v)
  {
    forall p | PathBetween(LOOP, 0, p, v) ensures 0 in p && (v != 0 ==> 1 in p) {
      assert p[0] == 0;
      if v != 0 {
        assert Edge(LOOP, p[0], p[0 + 1]);
        assert p[1] == 1;
      }
    }
  }

  lemma LoopParent(v: nat, p: seq<nat>)
    requires 2 <= v < 5 && PathBetween(LOOP, 0, p, v) && p[..|p| - 1] == if |p| == 3 then [0, 1] else [0, 1, 2]
    requires |p| == 4 ==> PathBetween(LOOP, 0, [0, 1, 3, 4], v)
    ensures ImmediateDominator(LOOP, 1, v)
  {
    LoopThroughOne(v);
    LoopThroughOne(1);
    DominatesSelf(LOOP, 1);
    forall e: nat | StrictlyDominates(LOOP, e, v) ensures Dominates(LOOP, e, 1) {
      assert e in p && e != p[|p| - 1];
      assert e in p[..|p| - 1];
      if |p| == 4 { assert e in [0, 1, 3, 4]; }
    }
  }

  lemma LoopTree()
    ensures DomTree(LOOP, LOOP_DOMS)
  {
    LoopEdges();
    forall e: nat | StrictlyDominates(LOOP, e, 1) ensures Dominates(LOOP, e, 0) {
      assert PathBetween(LOOP, 0, [0, 1], 1);
      DominatesSelf(LOOP, 0);
    }
    LoopThroughOne(1);
    assert Parent(LOOP, LOOP_DOMS, 1);
    assert PathBetween(LOOP, 0, [0, 1, 2], 2);
    LoopParent(2, [0, 1, 2]);
    assert PathBetween(LOOP, 0, [0, 1, 3], 3);
    LoopParent(3, [0, 1, 3]);
    assert PathBetween(LOOP, 0, [0, 1, 2, 4], 4) && PathBetween(LOOP, 0, [0, 1, 3, 4], 4);
    LoopParent(4, [0, 1, 2, 4]);
    assert Parent(LOOP, LOOP_DOMS, 2) && Parent(LOOP, LOOP_DOMS, 3) && Parent(LOOP, LOOP_DOMS, 4);
  }

  /** Without that, blocks can be missed: block 1 of the loop lies in its own frontier, by way
      of block 4, where the sides meet, but no walk from 1 gets to 4. */
  lemma FrontierMissed(y: Task)
    requires y == RawTask.Task(LOOP, LOOP_DOMS, {1})
    ensures DomTree(LOOP, LOOP_DOMS) && InIteratedFrontier(LOOP, {1}, 1) && !Joined(y, 1)
  {
    LoopTree();
    LoopEdges();
    LoopThroughOne(4);
    assert Dominates(LOOP, 1, 4) && Edge(LOOP, 4, 1);
    assert InFrontier(LOOP, 1, 1);
    var d := [1, 1];
    assert FrontierChain(LOOP, d) && d[|d| - 1] == 1;
    if Joined(y, 1) {
      var c :| |c| > 1 && c[0] in y.W && c[|c| - 1] == 1 && FoundChain(y, c);
      assert Found(LOOP, LOOP_DOMS, c[1 - 1], c[1]);
      NothingFound(c[1]);
    }
  }

  lemma NothingFound(b: nat)
    ensures Upward(LOOP_DOMS) && !Found(LOOP, LOOP_DOMS, 1, b)
  {
  }
}
