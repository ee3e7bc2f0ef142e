/** The depth of blocks in the dominator tree, and dominance frontiers. */
module DominatorTree {
  import opened Graphs
  import opened Block
  import opened Dominators

  /** D holds the immediate dominators of a graph in reverse postorder, -1 for the entry. */
  ghost predicate DomTree(G: Graph, D: DomMap) {
    && ReversePostorder(G) && |D| == |G| && D[0] == -1
    && forall v :: 0 < v < |G| ==> Parent(G, D, v)
  }

  ghost predicate Parent(G: Graph, D: DomMap, v: nat)
    requires v < |D|
  {
    0 <= D[v] < v && ImmediateDominator(G, D[v], v)
  }

  /** Links lead to smaller indices. */
  predicate Upward(D: DomMap) {
    forall v :: 0 <= v < |D| ==> D[v] < v
  }

  /** The depth that build_dom_depth gives to block v. */
  function Depth(D: DomMap, v: nat): nat
    requires Upward(D) && v < |D|
  {
    if D[v] >= 0 then Depth(D, D[v]) + 1 else v
  }

  /** The immed_dom fields spell D, where -1 stands for null. */
  ghost predicate SpellsTree(bl: seq<FlowBlock>, D: DomMap)
    reads bl`index, bl`immedDom
  {
    && |D| == |bl| && Upward(D)
    && (forall v :: 0 <= v < |bl| ==> bl[v].index == v && (bl[v].immedDom == null <==> D[v] < 0))
    && forall v :: 0 <= v < |bl| && D[v] >= 0 ==> bl[v].immedDom == bl[D[v]]
  }

  ghost function ParentOf(G: Graph, v: nat): int {
    if d: nat :| d < v && ImmediateDominator(G, d, v) then d else -1
  }

  /** What calc_forward_dominator leaves in the fields is a dominator tree. */
  lemma TreeOfFields(bl: seq<FlowBlock>, G: Graph) returns (D: DomMap)
    requires |bl| == |G| && ReversePostorder(G) && bl[0].immedDom == null
    requires forall v :: 0 <= v < |bl| ==> bl[v].index == v
    requires forall v :: 0 < v < |bl| ==> ImmedDomIsRight(bl, G, v)
    ensures DomTree(G, D) && SpellsTree(bl, D)
  {
    D := seq(|G|, v requires 0 <= v < |G| => ParentOf(G, v));
    forall v | 0 < v < |G| ensures Parent(G, D, v) && bl[v].immedDom == bl[D[v]] {
      assert ImmedDomIsRight(bl, G, v);
      var d: nat :| d < v && bl[d] == bl[v].immedDom && ImmediateDominator(G, d, v);
      ImmediateDominatorUnique(G, ParentOf(G, v), d, v);
    }
    assert ParentOf(G, 0) == -1;
    forall v | 0 <= v < |bl| ensures D[v] < v && (bl[v].immedDom == null <==> D[v] < 0) {
      if v > 0 { assert Parent(G, D, v); }
    }
  }

  /** build_dom_depth: the depth vector, and the largest depth. */
  method BuildDomDepth(bl: seq<FlowBlock>, ghost D: DomMap) returns (depth: seq<nat>, max: nat)
    requires SpellsTree(bl, D)
    ensures |depth| == |bl| + 1 && depth[|bl|] == 0
    ensures forall v :: 0 <= v < |bl| ==> depth[v] == Depth(D, v) <= max
    ensures max == 0 || exists v :: 0 <= v < |bl| && depth[v] == max
  {
    depth := seq(|bl| + 1, _ => 0);
    max := 0;
    var i := 0;
    while i < |bl|
      invariant 0 <= i <= |bl| && |depth| == |bl| + 1
      invariant forall v :: 0 <= v < i ==> depth[v] == Depth(D, v) <= max
      invariant max == 0 || exists v :: 0 <= v < i && depth[v] == max
    {
      var b := bl[i].immedDom;
      if b != null {
        assert b == bl[D[i]] && bl[D[i]].index == D[i];
        depth := depth[i := depth[b.index] + 1];
      } else {
        depth := depth[i := i];
      }
      if max < depth[i] { max := depth[i]; }
      i := i + 1;
    }
    depth := depth[|bl| := 0];
  }

  // ----- chains are dominance

  /** The immed_dom chain of a block holds its dominators and nothing else. */
  lemma {:induction false} ChainIsDominators(G: Graph, D: DomMap, x: nat, v: nat)
    requires DomTree(G, D) && v < |G|
    ensures OnChain(D, x, v) <==> Dominates(G, x, v)
    decreases v
  {
    DominatesSelf(G, v);
    if v == 0 {
      if Dominates(G, x, 0) { assert PathBetween(G, 0, [0], 0); }
    } else {
      assert Parent(G, D, v);
      ChainIsDominators(G, D, x, D[v]);
      if OnChain(D, x, v) && x != v { DominatesTransitive(G, x, D[v], v); }
      if Dominates(G, x, v) && x != v { assert StrictlyDominates(G, x, v); }
    }
  }

  /** Depth grows along chains. */
  lemma {:induction false} ChainDepth(D: DomMap, x: nat, v: nat)
    requires Upward(D) && v < |D| && OnChain(D, x, v)
    ensures x < |D| && if x == v then true else Depth(D, x) < Depth(D, v)
    decreases v
  {
    if x != v { ChainDepth(D, x, D[v]); }
  }

  lemma TreeUpward(G: Graph, D: DomMap)
    requires DomTree(G, D)
    ensures Upward(D)
  {
    forall v | 0 <= v < |D| ensures D[v] < v {
      if v > 0 { assert Parent(G, D, v); }
    }
  }

  ghost function StrictDominators(G: Graph, v: nat): set<nat> {
    set d | 0 <= d < |G| && StrictlyDominates(G, d, v)
  }

  /** The depth of a block is the number of its strict dominators. */
  lemma {:induction false} DepthCounts(G: Graph, D: DomMap, v: nat)
    requires DomTree(G, D) && v < |G|
    ensures Upward(D) && Depth(D, v) == |StrictDominators(G, v)|
    decreases v
  {
    TreeUpward(G, D);
    if v == 0 {
      forall d | d in StrictDominators(G, 0) ensures false { ChainIsDominators(G, D, d, 0); }
      assert StrictDominators(G, 0) == {};
    } else {
      assert Parent(G, D, v);
      var u := D[v];
      DepthCounts(G, D, u);
      forall d: nat ensures d in StrictDominators(G, v) <==> d in StrictDominators(G, u) + {u} {
        ChainIsDominators(G, D, d, v);
        ChainIsDominators(G, D, d, u);
        if OnChain(D, d, u) { ChainBelow(D, d, u); }
      }
      assert StrictDominators(G, v) == StrictDominators(G, u) + {u};
    }
  }

  // ----- frontiers

  /** y is where the dominance of x ends: x dominates a predecessor of y, but not y strictly. */
  ghost predicate InFrontier(G: Graph, x: nat, y: nat) {
    (exists v: nat :: Dominates(G, x, v) && Edge(G, v, y)) && !StrictlyDominates(G, x, y)
  }

  /** Along c, every block lies in the frontier of the one before. */
  ghost predicate FrontierChain(G: Graph, c: seq<nat>) {
    forall i {:trigger c[i]} :: 0 < i < |c| ==> InFrontier(G, c[i - 1], c[i])
  }

  /** The iterated dominance frontier of the blocks in W. */
  ghost predicate InIteratedFrontier(G: Graph, W: set<nat>, y: nat) {
    exists c :: |c| > 1 && c[0] in W && c[|c| - 1] == y && FrontierChain(G, c)
  }

  /** The walk from x to v down the dominator tree, when it uses only edges of the graph. */
  ghost predicate Walk(G: Graph, D: DomMap, x: nat, v: nat)
    decreases v
  {
    x == v || (v < |D| && 0 <= D[v] < v && Edge(G, D[v], v) && Walk(G, D, x, D[v]))
  }

  /** y is a target that such walks from x find: the end of a join edge, not deeper than x. */
  ghost predicate Found(G: Graph, D: DomMap, x: nat, y: nat)
    requires Upward(D)
  {
    x < |D| && y < |D| && Depth(D, y) <= Depth(D, x) && exists v: nat :: Walk(G, D, x, v) && Edge(G, v, y) && D[y] != v
  }

  lemma {:induction false} WalkIsChain(G: Graph, D: DomMap, x: nat, v: nat)
    requires Walk(G, D, x, v)
    ensures OnChain(D, x, v)
    decreases v
  {
    if x != v { WalkIsChain(G, D, x, D[v]); }
  }

  /** What is found lies in the frontier. */
  lemma FoundInFrontier(G: Graph, D: DomMap, x: nat, y: nat)
    requires DomTree(G, D) && Upward(D) && Found(G, D, x, y)
    ensures InFrontier(G, x, y)
  {
    var v: nat :| Walk(G, D, x, v) && Edge(G, v, y) && D[y] != v;
    WalkIsChain(G, D, x, v);
    ChainIsDominators(G, D, x, v);
    if StrictlyDominates(G, x, y) {
      ChainIsDominators(G, D, x, y);
      ChainDepth(D, x, y);
    }
  }

  /** A block that x dominates has a predecessor in its frontier only at depths up to that of x. */
  lemma FrontierDepth(G: Graph, D: DomMap, x: nat, v: nat, y: nat)
    requires DomTree(G, D) && Upward(D) && v < |G| && OnChain(D, x, v) && Edge(G, v, y)
    ensures x < |G| && y < |G| && (StrictlyDominates(G, x, y) <==> Depth(D, x) < Depth(D, y))
  {
    var j :| 0 <= j < |G[v]| && G[v][j] == y;
    ChainBelow(D, x, v);
    ChainIsDominators(G, D, x, y);
    if StrictlyDominates(G, x, y) { ChainDepth(D, x, y); }
    if Depth(D, x) < Depth(D, y) {
      assert Parent(G, D, y);
      var u := D[y];
      StrictDominatorOfSuccessor(G, u, v, y);
      ChainIsDominators(G, D, u, v);
      if u < x { ChainOrder(D, u, x, v); ChainDepth(D, u, x); } else { ChainOrder(D, x, u, v); }
    }
  }

  /** On the way from x down to v, the block right below x. */
  lemma {:induction false} ChildTowards(D: DomMap, x: nat, v: nat) returns (c: nat)
    requires Upward(D) && v < |D| && OnChain(D, x, v) && x != v
    ensures c < |D| && D[c] == x && OnChain(D, c, v)
    decreases v
  {
    if D[v] == x { c := v; } else { c := ChildTowards(D, x, D[v]); }
  }

  /** Below x, at the end of an edge from what x dominates: a block one deeper than x is a child of x. */
  lemma SameLevel(G: Graph, D: DomMap, x: nat, v: nat, y: nat)
    requires DomTree(G, D) && Upward(D) && x < |G| && v < |G| && OnChain(D, x, v) && Edge(G, v, y) && y < |G|
    requires Depth(D, y) == Depth(D, x) + 1
    ensures D[y] == x
  {
    FrontierDepth(G, D, x, v, y);
    ChainIsDominators(G, D, x, y);
    if D[y] != x { ChainDepth(D, x, D[y]); }
  }

  lemma {:induction false} WalkUp(G: Graph, D: DomMap, x: nat, c: nat, v: nat)
    requires c < |D| && 0 <= D[c] < c && D[c] == x && Edge(G, x, c) && Walk(G, D, c, v)
    ensures Walk(G, D, x, v)
    decreases v
  {
    if c != v { WalkUp(G, D, x, c, D[v]); }
  }
}
