/** Where phis go, from the raw block graph on: number the blocks, find the dominators, measure
    depths, place. */
module PhiSites {
  import opened Graphs
  import opened Sequences
  import opened Block
  import opened SpanningTree
  import opened DepthFirst
  import opened Dominators
  import opened Structure
  import opened DominatorTree
  import opened PhiPlacement
  import opened PlacementFrontier

  /** The successors of a block, by index. */
  method Successors(bl: seq<FlowBlock>, v: nat, ghost G: Graph) returns (row: seq<nat>)
    requires v < |bl| && Represents(bl, G) && forall u :: 0 <= u < |bl| ==> bl[u].index == u
    ensures row == G[v]
  {
    row := [];
    var j := 0;
    while j < |bl[v].out|
      invariant 0 <= j <= |bl[v].out| && row == G[v][..j]
    {
      assert bl[v].out[j].point == bl[G[v][j]];
      row := row + [bl[v].out[j].point.index];
      j := j + 1;
    }
  }

  /** What the fields of the blocks say, by index. */
  method ReadFields(bl: seq<FlowBlock>, ghost G: Graph, ghost P: Graph) returns (G': Graph, D: DomMap)
    requires Ordered(bl, G, P) && ReversePostorder(G) && bl[0].immedDom == null
    requires forall v :: 0 < v < |bl| ==> ImmedDomIsRight(bl, G, v)
    ensures G' == G && DomTree(G, D) && SpellsTree(bl, D)
  {
    ghost var T := TreeOfFields(bl, G);
    G', D := [], [];
    var v := 0;
    while v < |bl|
      invariant 0 <= v <= |bl| && G' == G[..v] && D == T[..v]
    {
      var row := Successors(bl, v, G);
      var d := bl[v].immedDom;
      assert if v == 0 then T[v] == -1 else Parent(G, T, v);
      assert if d == null then T[v] == -1 else d == bl[T[v]] && d.index == T[v];
      G', D := G' + [row], D + [if d == null then -1 else d.index];
      v := v + 1;
    }
    assert G[..v] == G && T[..v] == T;
  }

  /** structure_reset, build_dom_depth and calc_phi_placement3 one after the other: on the blocks in
      their new order, merge lists each block once that is found from the writing blocks, and all of
      them lie in the iterated dominance frontier of these. */
  method FindPhiSites(g: BlockGraph, write: seq<FlowBlock>, ghost G: Graph, ghost P: Graph)
      returns (status: Status, merge: seq<nat>, ghost s: Dfs, ghost y: Task)
    requires Wired(g.blist, G, P, |g.blist|) && WellFormed(G) && Transposed(G, P) && |g.blist| > 0
    requires forall v :: 0 <= v < |G| ==> Reaches(G, 0, v)
    requires forall b :: b in write ==> b in g.blist
    modifies g`exitlist, g`blist, g.blist`index, g.blist`dfnum, g.blist`numdesc, g.blist`out, g.blist`inn,
        g.blist`immedDom
    ensures status.Error? <==> |P[0]| > 0
    ensures status.Done? ==> g.blist == At(old(g.blist), s.rpo) && y.G == Renamed(G, s) && DomTree(y.G, y.D)
    ensures status.Done? ==> |y.G| == |g.blist| && forall v :: v in y.W <==> 0 <= v < |y.G| && g.blist[v] in write
    ensures status.Done? ==> NoDuplicates(merge) && forall b: nat :: b in merge <==> Joined(y, b)
    ensures status.Done? ==> forall b: nat :: b in merge ==> InIteratedFrontier(y.G, y.W, b)
    ensures status.Done? && GapsCovered(y) ==> forall b: nat :: b in merge <==> InIteratedFrontier(y.G, y.W, b)
  {
    merge, y := [], RawTask.Task([], [], {});
    ghost var bl := g.blist;
    ghost var entryDesc, labs0 := g.blist[0].numdesc, OutLabels(g.blist, |g.blist|);
    status, s := StructureReset(g, G, P);
    if status.Error? { return; }
    AfterPass(bl, g.blist, G, P, s, entryDesc, labs0);
    DominatorsFoundAt(g.blist, Renamed(G, s), |g.blist|);
    ghost var H, Q := Renamed(G, s), Renamed(P, s);
    PassResultAt(bl, G, s, entryDesc, labs0, |bl|);
    ReorderedHas(bl, g.blist, G, s);
    merge, y := PlaceFrom(g.blist, write, H, Q);
    forall b: nat | b in merge ensures InIteratedFrontier(y.G, y.W, b) { MergedInFrontier(y, b); }
    if GapsCovered(y) {
      WholeExactly(y);
      forall b: nat | InIteratedFrontier(y.G, y.W, b) ensures b in merge { WholeMerged(y, b); }
    }
  }

  lemma WholeMerged(y: Task, b: nat)
    requires AlwaysWhole(y) && InIteratedFrontier(y.G, y.W, b)
    ensures Joined(y, b)
  {
    assert y == RawTask.Task(y.G, y.D, y.W);
  }

  /** Reordering loses no block. */
  lemma ReorderedHas(bl: seq<FlowBlock>, nb: seq<FlowBlock>, G: Graph, s: Dfs)
    requires IsSpanningTree(G, s) && |bl| == |G| && nb == At(bl, s.rpo)
    ensures forall b :: b in bl ==> b in nb
  {
    forall b | b in bl ensures b in nb {
      var v :| 0 <= v < |bl| && bl[v] == b;
      assert nb[s.index[v]] == b;
    }
  }

  /** The indices of blocks of the list. */
  method IndexList(bl: seq<FlowBlock>, write: seq<FlowBlock>) returns (sites: seq<nat>)
    requires Distinct(bl) && (forall v :: 0 <= v < |bl| ==> bl[v].index == v) && forall b :: b in write ==> b in bl
    ensures |sites| == |write| && forall k :: 0 <= k < |sites| ==> sites[k] < |bl| && bl[sites[k]] == write[k]
    ensures forall v :: 0 <= v < |bl| ==> (v in sites <==> bl[v] in write)
  {
    sites := [];
    var k := 0;
    while k < |write|
      invariant 0 <= k <= |write| && |sites| == k
      invariant forall i :: 0 <= i < k ==> sites[i] < |bl| && bl[sites[i]] == write[i]
    {
      assert write[k] in bl;
      sites := sites + [write[k].index];
      k := k + 1;
    }
    DistinctPositions(bl);
    forall v | 0 <= v < |bl| && bl[v] in write ensures v in sites {
      var i :| 0 <= i < |write| && write[i] == bl[v];
      assert bl[sites[i]] == bl[v];
    }
  }

  /** Depths and placement, on blocks whose immed_dom fields are right. */
  method PlaceFrom(bl: seq<FlowBlock>, write: seq<FlowBlock>, ghost G: Graph, ghost P: Graph)
      returns (merge: seq<nat>, ghost y: Task)
    requires Ordered(bl, G, P) && ReversePostorder(G) && bl[0].immedDom == null
    requires forall v :: 0 < v < |bl| ==> ImmedDomIsRight(bl, G, v)
    requires forall b :: b in write ==> b in bl
    ensures y.G == G && DomTree(G, y.D) && |G| == |bl|
    ensures forall v :: v in y.W <==> 0 <= v < |bl| && bl[v] in write
    ensures NoDuplicates(merge) && forall b: nat :: b in merge <==> Joined(y, b)
  {
    var H, D := ReadFields(bl, G, P);
    var sites := IndexList(bl, write);
    var task: Task := RawTask.Task(H, D, set b | b in sites);
    y := task;
    var pl := new Placement();
    pl.domdepth, pl.maxdepth := BuildDomDepth(bl, D);
    pl.phiflags := seq(|bl|, _ => {});
    pl.CalcPhiPlacement3(task, sites);
    merge := pl.merge;
  }
}
