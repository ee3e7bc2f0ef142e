/** structure_reset: number the blocks, put them in reverse postorder, find the dominators. */
module Structure {
  import opened Graphs
  import opened Sequences
  import opened Block
  import opened SpanningTree
  import opened DepthFirst
  import opened Dominators

  lemma RenamedEdge(G: Graph, P: Graph, s: Dfs, u: nat, v: nat)
    requires Shape(G, s) && Bijections(G, s) && WellFormed(P) && Transposed(G, P)
    requires v < |G|
    ensures u in Renamed(P, s)[v] <==> Edge(Renamed(G, s), u, v)
  {
    var H, Q := Renamed(G, s), Renamed(P, s);
    RenamedEdges(G, s);
    RenamedEdges(P, s);
    if u in Q[v] {
      var j :| 0 <= j < |Q[v]| && Q[v][j] == u;
      var x := P[s.rpo[v]][j];
      assert x in P[s.rpo[v]] && Edge(G, x, s.rpo[v]);
      var k :| 0 <= k < |G[x]| && G[x][k] == s.rpo[v];
      assert s.rpo[u] == x && H[u][k] == v;
    }
    if Edge(H, u, v) {
      var k :| 0 <= k < |H[u]| && H[u][k] == v;
      var x := s.rpo[u];
      assert s.rpo[v] == G[x][k];
      assert Edge(G, x, s.rpo[v]) && x in P[s.rpo[v]];
      var j :| 0 <= j < |P[s.rpo[v]]| && P[s.rpo[v]][j] == x;
      assert Q[v][j] == u;
    }
  }

  lemma RenamedTransposed(G: Graph, P: Graph, s: Dfs)
    requires Shape(G, s) && Bijections(G, s) && WellFormed(P) && Transposed(G, P)
    ensures Transposed(Renamed(G, s), Renamed(P, s))
  {
    var H, Q := Renamed(G, s), Renamed(P, s);
    forall u: nat, v | 0 <= v < |H| ensures u in Q[v] <==> Edge(H, u, v) {
      RenamedEdge(G, P, s, u, v);
    }
  }

  lemma ReorderedAt(bl: seq<FlowBlock>, nb: seq<FlowBlock>, G: Graph, P: Graph, s: Dfs, i: nat)
    requires Wired(bl, G, P, |bl|) && |bl| == |G| && WellFormed(G) && WellFormed(P) && |P| == |G|
    requires Shape(G, s) && Bijections(G, s) && nb == At(bl, s.rpo) && i < |nb|
    ensures BlockWired(nb, Renamed(G, s), Renamed(P, s), i)
  {
    WiredAt(bl, G, P, s.rpo[i]);
    ReorderedHalf(bl, nb, G, s, i, bl[s.rpo[i]].out);
    ReorderedHalf(bl, nb, P, s, i, bl[s.rpo[i]].inn);
  }

  /** One of the two edge arrays of a block, before and after reordering. */
  lemma ReorderedHalf(bl: seq<FlowBlock>, nb: seq<FlowBlock>, G: Graph, s: Dfs, i: nat, es: seq<BlockEdge>)
    requires |bl| == |G| == |s.rpo| == |s.index| == |nb| && WellFormed(G) && i < |nb| && nb == At(bl, s.rpo)
    requires forall k :: 0 <= k < |G| ==> s.rpo[k] < |G| && 0 <= s.index[k] < |G| && s.rpo[s.index[k]] == k
    requires s.rpo[i] < |G| && |es| == |G[s.rpo[i]]| &&
        forall j :: 0 <= j < |es| ==> G[s.rpo[i]][j] < |bl| && es[j].point == bl[G[s.rpo[i]][j]]
    ensures |s.rpo| == |G| && |s.index| == |G|
    ensures var H := Renamed(G, s);
        |H| == |nb| && |es| == |H[i]| && forall j :: 0 <= j < |es| ==> H[i][j] < |nb| && es[j].point == nb[H[i][j]]
  {
    RenamedEdges(G, s);
    forall j | 0 <= j < |es| ensures Renamed(G, s)[i][j] < |nb| && es[j].point == nb[Renamed(G, s)[i][j]] {
      var v := G[s.rpo[i]][j];
      assert Renamed(G, s)[i][j] == s.index[v];
    }
  }

  lemma ReorderedDistinct(bl: seq<FlowBlock>, nb: seq<FlowBlock>, G: Graph, P: Graph, s: Dfs)
    requires Wired(bl, G, P, |bl|) && |bl| == |G| > 0
    requires Shape(G, s) && Bijections(G, s) && nb == At(bl, s.rpo)
    ensures Distinct(nb)
  {
    WiredSizes(bl, G, P);
    NoRepeatsPairs(nb, |nb|);
  }

  /** The reordered blocks represent the renamed graph, and their index fields are positions. */
  lemma ReorderedBlocks(bl: seq<FlowBlock>, nb: seq<FlowBlock>, G: Graph, P: Graph, s: Dfs)
    requires Wired(bl, G, P, |bl|) && |bl| == |G| && WellFormed(G) && WellFormed(P) && Transposed(G, P)
    requires Shape(G, s) && Bijections(G, s) && nb == At(bl, s.rpo)
    requires forall v :: 0 <= v < |bl| ==> bl[v].index == s.index[v]
    ensures Ordered(nb, Renamed(G, s), Renamed(P, s))
  {
    var H, Q := Renamed(G, s), Renamed(P, s);
    RenamedTransposed(G, P, s);
    ReorderedDistinct(bl, nb, G, P, s);
    forall i | 0 <= i < |nb| ensures BlockWired(nb, H, Q, i) {
      ReorderedAt(bl, nb, G, P, s, i);
    }
    BlocksRepresent(nb, H, Q);
  }

  lemma AfterPass(bl: seq<FlowBlock>, nb: seq<FlowBlock>, G: Graph, P: Graph, s: Dfs, entryDesc: int, labs0: Labels)
    requires Wired(bl, G, P, |bl|) && |bl| > 0 && Transposed(G, P) && WellFormed(G)
    requires PassResult(bl, G, s, entryDesc, labs0, |bl|) && nb == At(bl, s.rpo)
    ensures |P| == |G| == |nb|
    ensures Ordered(nb, Renamed(G, s), Renamed(P, s)) && ReversePostorder(Renamed(G, s))
    ensures |Renamed(P, s)[0]| == |P[0]|
    ensures forall b :: b in nb ==> b in bl
  {
    WiredIn(bl, G, P);
    PassIndices(bl, G, s, entryDesc, labs0);
    RenamedIsOrdered(G, s);
    TreeFacts(bl, nb, G, s);
    ReorderedBlocks(bl, nb, G, P, s);
    RenamedEntry(P, s);
  }

  lemma TreeFacts(bl: seq<FlowBlock>, nb: seq<FlowBlock>, G: Graph, s: Dfs)
    requires IsSpanningTree(G, s) && |bl| == |G| > 0 && nb == At(bl, s.rpo)
    ensures Shape(G, s) && Bijections(G, s) && |nb| == |G| && forall b :: b in nb ==> b in bl
    ensures s.index[0] == 0 && s.rpo[0] == 0 && forall i :: 0 <= i < |G| ==> s.rpo[i] < |G| && 0 <= s.index[i]
  {
  }

  lemma PassIndices(bl: seq<FlowBlock>, G: Graph, s: Dfs, entryDesc: int, labs0: Labels)
    requires |bl| > 0 && PassResult(bl, G, s, entryDesc, labs0, |bl|)
    ensures IsSpanningTree(G, s) && |s.index| == |G| == |bl| && forall v :: 0 <= v < |bl| ==> bl[v].index == s.index[v]
  {
    PassResultAt(bl, G, s, entryDesc, labs0, |bl|);
    forall v | 0 <= v < |bl| ensures bl[v].index == s.index[v] {
      assert FieldsAre(bl, s, entryDesc, labs0, v);
    }
  }

  lemma RenamedEntry(P: Graph, s: Dfs)
    requires WellFormed(P) && |s.rpo| == |s.index| == |P| > 0 && s.index[0] == 0 && s.rpo[0] == 0
    requires forall i :: 0 <= i < |P| ==> s.rpo[i] < |P| && 0 <= s.index[i]
    ensures |Renamed(P, s)[0]| == |P[0]|
  {
    RenamedEdges(P, s);
  }

  lemma WiredIn(bl: seq<FlowBlock>, G: Graph, P: Graph)
    requires Wired(bl, G, P, |bl|)
    ensures WellFormed(P) && |P| == |G| == |bl|
  {
    WiredRepresents(bl, G, P);
  }

  /** Number the blocks and compute their dominators.  Fails iff the entry has an in-edge. */
  method StructureReset(g: BlockGraph, ghost G: Graph, ghost P: Graph) returns (status: Status, ghost s: Dfs)
    requires Wired(g.blist, G, P, |g.blist|) && WellFormed(G) && Transposed(G, P) && |g.blist| > 0
    requires forall v :: 0 <= v < |G| ==> Reaches(G, 0, v)
    modifies g`exitlist, g`blist, g.blist`index, g.blist`dfnum, g.blist`numdesc, g.blist`out, g.blist`inn,
        g.blist`immedDom
    ensures |P| == |old(g.blist)| && (status.Error? <==> |P[0]| > 0)
    ensures status.Done? ==>
      PassResult(old(g.blist), G, s, old(g.blist[0].numdesc), old(OutLabels(g.blist, |g.blist|)), |old(g.blist)|)
    ensures status.Error? ==> g.blist == old(g.blist)
    ensures status.Done? ==> g.blist == At(old(g.blist), s.rpo) && Wired(old(g.blist), G, P, |old(g.blist)|)
    ensures status.Done? ==> DominatorsFound(g.blist, Renamed(G, s), |g.blist|)
  {
    ghost var bl := g.blist;
    var preorder, rootlist;
    status, preorder, rootlist, s := FindSpanningTree(g, G, P);
    if status.Done? {
      ghost var entryDesc, labs0 := old(g.blist[0].numdesc), old(OutLabels(g.blist, |g.blist|));
      SecondPass(g.blist, |rootlist|, bl, G, P, s, entryDesc, labs0);
    }
  }

  /** The immed_dom fields of the first n of the blocks nb are right for the graph H. */
  ghost predicate DominatorsFound(nb: seq<FlowBlock>, H: Graph, n: nat)
    requires n <= |nb|
    reads nb`immedDom
  {
    n == 0 || (DominatorsFound(nb, H, n - 1) &&
        if n == 1 then nb[0].immedDom == null else ImmedDomIsRight(nb, H, n - 1))
  }

  lemma {:induction false} DominatorsFoundFrom(nb: seq<FlowBlock>, H: Graph, n: nat)
    requires n <= |nb| && (|nb| > 0 ==> nb[0].immedDom == null)
    requires forall v :: 0 < v < |nb| ==> ImmedDomIsRight(nb, H, v)
    ensures DominatorsFound(nb, H, n)
  {
    if n > 0 { DominatorsFoundFrom(nb, H, n - 1); }
  }

  lemma {:induction false} DominatorsFoundAt(nb: seq<FlowBlock>, H: Graph, n: nat)
    requires n <= |nb| && DominatorsFound(nb, H, n)
    ensures n > 0 ==> nb[0].immedDom == null
    ensures forall v :: 0 < v < n ==> ImmedDomIsRight(nb, H, v)
  {
    if n > 0 { DominatorsFoundAt(nb, H, n - 1); }
  }

  /** The dominators of the reordered blocks. */
  method SecondPass(nb: seq<FlowBlock>, rootCount: nat, ghost bl: seq<FlowBlock>, ghost G: Graph, ghost P: Graph,
      ghost s: Dfs,
                    ghost entryDesc: int, ghost labs0: Labels)
    requires Wired(bl, G, P, |bl|) && |bl| > 0 && Transposed(G, P) && WellFormed(G)
    requires PassResult(bl, G, s, entryDesc, labs0, |bl|) && nb == At(bl, s.rpo)
    requires rootCount == 1 && |P| > 0 && |P[0]| == 0
    modifies bl`immedDom
    ensures DominatorsFound(nb, Renamed(G, s), |nb|)
  {
    AfterPass(bl, nb, G, P, s, entryDesc, labs0);
    var status := CalcForwardDominator(nb, rootCount, Renamed(G, s), Renamed(P, s));
    DominatorsFoundFrom(nb, Renamed(G, s), |nb|);
  }
}
