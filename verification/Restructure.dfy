/** Removing the unreachable blocks of a function, up to the structure_reset at the end. */
module Restructure {
  import opened Graphs
  import opened Sequences
  import opened Block
  import opened SpanningTree
  import opened DepthFirst
  import opened Dominators
  import opened Structure
  import opened Reachability

  // ----- the graph of a list of blocks

  ghost function PosOf(bl: seq<FlowBlock>, b: FlowBlock): (v: nat)
    ensures b in bl ==> v < |bl| && bl[v] == b
  {
    if v: nat :| v < |bl| && bl[v] == b then v else 0
  }

  ghost function RowOf(bl: seq<FlowBlock>, es: seq<BlockEdge>): (r: seq<nat>)
    ensures |r| == |es| && forall j :: 0 <= j < |es| ==> r[j] == PosOf(bl, es[j].point)
  {
    seq(|es|, j requires 0 <= j < |es| => PosOf(bl, es[j].point))
  }

  ghost function GraphOf(bl: seq<FlowBlock>, A: EdgeMap): (G: Graph)
    requires Blocks(bl) <= A.Keys
    ensures |G| == |bl| && forall v :: 0 <= v < |bl| ==> bl[v] in Blocks(bl) && G[v] == RowOf(bl, A[bl[v]])
  {
    assert forall v :: 0 <= v < |bl| ==> bl[v] in Blocks(bl);
    seq(|bl|, v requires 0 <= v < |bl| => RowOf(bl, A[bl[v]]))
  }

  /** The edges of the listed blocks stay among them. */
  ghost predicate Inside(bl: seq<FlowBlock>, A: EdgeMap) {
    forall b, k :: b in bl && b in A && 0 <= k < |A[b]| ==> A[b][k].point in bl
  }

  lemma GraphIs(bl: seq<FlowBlock>, A: EdgeMap)
    requires Blocks(bl) <= A.Keys && Inside(bl, A)
    ensures var G := GraphOf(bl, A);
      WellFormed(G) && forall v, j :: 0 <= v < |bl| && 0 <= j < |G[v]| ==>
        bl[v] in A && j < |A[bl[v]]| && G[v][j] < |bl| && bl[G[v][j]] == A[bl[v]][j].point
  {
    var G := GraphOf(bl, A);
    forall v, j | 0 <= v < |bl| && 0 <= j < |G[v]|
      ensures bl[v] in A && j < |A[bl[v]]| && G[v][j] < |bl| && bl[G[v][j]] == A[bl[v]][j].point
    {
      assert bl[v] in Blocks(bl) && bl[v] in bl && G[v] == RowOf(bl, A[bl[v]]);
      assert A[bl[v]][j].point in bl;
    }
  }

  /** An edge has its twin in the graph of the other direction. */
  lemma EdgeTurned(bl: seq<FlowBlock>, A: EdgeMap, B: EdgeMap, u: nat, j: nat)
    requires Distinct(bl) && Blocks(bl) <= A.Keys && Inside(bl, A) && Inside(bl, B) && PairedMaps(A, B)
    requires u < |bl| && j < |GraphOf(bl, A)[u]|
    ensures var v := GraphOf(bl, A)[u][j]; v < |bl| && u in GraphOf(bl, B)[v]
  {
    GraphIs(bl, A);
    GraphIs(bl, B);
    var v := GraphOf(bl, A)[u][j];
    assert Twin(A, B, bl[u], j);
    var k := A[bl[u]][j].reverseIndex;
    assert GraphOf(bl, B)[v] == RowOf(bl, B[bl[v]]);
    DistinctPositions(bl);
    assert GraphOf(bl, B)[v][k] == u;
  }

  lemma GraphsTransposed(bl: seq<FlowBlock>, I: EdgeMap, O: EdgeMap)
    requires Distinct(bl) && Blocks(bl) <= I.Keys && Inside(bl, I) && Inside(bl, O) && PairedMaps(I, O)
    ensures Transposed(GraphOf(bl, O), GraphOf(bl, I))
  {
    var G, P := GraphOf(bl, O), GraphOf(bl, I);
    GraphIs(bl, O);
    GraphIs(bl, I);
    forall u: nat, v | 0 <= v < |G| ensures u in P[v] <==> Edge(G, u, v) {
      if u in P[v] {
        var k :| 0 <= k < |P[v]| && P[v][k] == u;
        EdgeTurned(bl, I, O, v, k);
      }
      if Edge(G, u, v) {
        var j :| 0 <= j < |G[u]| && G[u][j] == v;
        EdgeTurned(bl, O, I, u, j);
      }
    }
  }

  /** A walk along out-edges is a path of positions. */
  lemma {:induction false} PathOf(bl: seq<FlowBlock>, O: EdgeMap, u: nat, path: seq<nat>, v: nat) returns (p: seq<nat>)
    requires Distinct(bl) && Blocks(bl) <= O.Keys && Inside(bl, O) && u < |bl| && v < |bl|
    requires Leads(O, bl[u], path, bl[v])
    ensures PathBetween(GraphOf(bl, O), u, p, v)
    decreases |path|
  {
    var G := GraphOf(bl, O);
    if path == [] {
      DistinctPositions(bl);
      p := [u];
    } else {
      GraphIs(bl, O);
      assert G[u] == RowOf(bl, O[bl[u]]);
      var w := G[u][path[0]];
      var q := PathOf(bl, O, w, path[1..], v);
      p := [u] + q;
      forall i | 0 <= i < |p| - 1 ensures Edge(G, p[i], p[i + 1]) {
        if i > 0 { assert Edge(G, q[i - 1], q[i - 1 + 1]); }
      }
    }
  }

  /** Only the points of the edges matter. */
  lemma SameGraph(bl: seq<FlowBlock>, A: EdgeMap, B: EdgeMap)
    requires Blocks(bl) <= A.Keys && A.Keys == B.Keys && forall b :: b in bl ==> b in B && EndsOf(A)[b] == EndsOf(B)[b]
    ensures GraphOf(bl, A) == GraphOf(bl, B)
  {
    forall v | 0 <= v < |bl| ensures GraphOf(bl, A)[v] == GraphOf(bl, B)[v] {
      var b := bl[v];
      assert b in Blocks(bl) && |EndsOf(A)[b]| == |A[b]| && |EndsOf(B)[b]| == |B[b]|;
      forall j | 0 <= j < |A[b]| ensures A[b][j].point == B[b][j].point {
        assert EndsOf(A)[b][j].point == EndsOf(B)[b][j].point;
      }
    }
  }

  // ----- what is left after removing

  lemma {:induction false} SiftFirst(bl: seq<FlowBlock>, X: set<FlowBlock>)
    requires bl != [] && bl[0] !in X
    ensures Sift(bl, X) != [] && Sift(bl, X)[0] == bl[0]
    decreases |bl|
  {
    if |bl| > 1 {
      SiftFirst(bl[..|bl| - 1], X);
    } else {
      assert bl[..0] == [] && Sift([], X) == [];
    }
  }

  /** The reached blocks keep their edges to themselves, begin with the entry, and are reached
      over their own edges. */
  lemma PrunedInside(bl: seq<FlowBlock>, dl: seq<FlowBlock>, I: EdgeMap, O: EdgeMap, entry: FlowBlock,
                     nb: seq<FlowBlock>, dl': seq<FlowBlock>, I': EdgeMap, O': EdgeMap)
    requires PairedMaps(I, O) && Distinct(bl) && Blocks(bl) == I.Keys && bl != [] && bl[0] == entry
    requires Pruned(Unreached(bl, O, entry), bl, dl, EndsOf(I), EndsOf(O), nb, dl', EndsOf(I'), EndsOf(O'))
    requires PairedMaps(I', O')
    ensures Distinct(nb) && nb != [] && nb[0] == entry && Blocks(nb) <= I'.Keys && Inside(nb, I') && Inside(nb, O')
    ensures forall b :: b in nb <==> b in bl && BlockReaches(O, entry, b)
    ensures forall v :: 0 <= v < |nb| ==> Reaches(GraphOf(nb, O'), 0, v)
  {
    PrunedIsReachable(bl, dl, I, O, entry, nb, dl', EndsOf(I'), EndsOf(O'));
    PrunedOrder(bl, O, entry, nb);
    ClosedByTwins(I, O);
    InsideOut(bl, O, entry, nb);
    InsideSame(nb, O, O');
    InsideIn(bl, O, entry, nb, I', O');
    SameGraph(nb, O', O);
    ReachedOver(nb, O, entry);
  }

  lemma PrunedOrder(bl: seq<FlowBlock>, O: EdgeMap, entry: FlowBlock, nb: seq<FlowBlock>)
    requires Distinct(bl) && bl != [] && bl[0] == entry && nb == Sift(bl, Blocks(Unreached(bl, O, entry)))
    ensures Distinct(nb) && nb != [] && nb[0] == entry && Blocks(nb) <= Blocks(bl)
  {
    var X := Blocks(Unreached(bl, O, entry));
    UnreachedIs(bl, O, entry);
    BlockReachesSelf(O, entry);
    SiftFirst(bl, X);
    SiftIs(bl, X);
  }

  lemma InsideSame(nb: seq<FlowBlock>, O: EdgeMap, O': EdgeMap)
    requires Inside(nb, O) && forall b :: b in nb ==> b in O && b in O' && EndsOf(O')[b] == EndsOf(O)[b]
    ensures Inside(nb, O')
  {
    forall b, k | b in nb && b in O' && 0 <= k < |O'[b]| ensures O'[b][k].point in nb {
      assert EndsOf(O')[b][k] == EndsOf(O)[b][k];
    }
  }

  lemma InsideIn(bl: seq<FlowBlock>, O: EdgeMap, entry: FlowBlock, nb: seq<FlowBlock>, I': EdgeMap, O': EdgeMap)
    requires AllTwins(I', O') && O'.Keys == Blocks(bl)
    requires forall b :: b in nb <==> b in bl && BlockReaches(O, entry, b)
    requires forall b, k :: b in nb && b in EndsOf(I') && 0 <= k < |EndsOf(I')[b]| ==>
      BlockReaches(O, entry, EndsOf(I')[b][k].point)
    ensures Inside(nb, I')
  {
    forall b, k | b in nb && b in I' && 0 <= k < |I'[b]| ensures I'[b][k].point in nb {
      assert EndsOf(I')[b][k].point == I'[b][k].point;
      assert Twin(I', O', b, k);
      assert I'[b][k].point in Blocks(bl);
    }
  }

  lemma ReachedOver(nb: seq<FlowBlock>, O: EdgeMap, entry: FlowBlock)
    requires Distinct(nb) && nb != [] && nb[0] == entry && Blocks(nb) <= O.Keys && Inside(nb, O)
    requires forall b :: b in nb ==> BlockReaches(O, entry, b)
    ensures forall v :: 0 <= v < |nb| ==> Reaches(GraphOf(nb, O), 0, v)
  {
    forall v | 0 <= v < |nb| ensures Reaches(GraphOf(nb, O), 0, v) {
      assert BlockReaches(O, entry, nb[v]) by { assert nb[v] in nb; }
      var path :| Leads(O, entry, path, nb[v]);
      var p := PathOf(nb, O, 0, path, v);
    }
  }

  lemma ClosedByTwins(I: EdgeMap, O: EdgeMap)
    requires PairedMaps(I, O)
    ensures Closed(O)
  {
    forall b, k | b in O.Keys && 0 <= k < |O[b]| ensures O[b][k].point in O.Keys { assert Twin(O, I, b, k); }
  }

  lemma InsideOut(bl: seq<FlowBlock>, O: EdgeMap, entry: FlowBlock, nb: seq<FlowBlock>)
    requires forall b :: b in nb <==> b in bl && BlockReaches(O, entry, b)
    requires Closed(O) && O.Keys == Blocks(bl)
    ensures Inside(nb, O)
  {
    forall b, k | b in nb && b in O && 0 <= k < |O[b]| ensures O[b][k].point in nb {
      BlockReachesStep(O, entry, b, k);
      assert O[b][k].point in Blocks(bl);
    }
  }

  // ----- remove_unreachable_blocks, to its end

  /** The blocks are wired up as their edge arrays say. */
  lemma WiredInside(bl: seq<FlowBlock>, S: set<FlowBlock>)
    requires Paired(S) && Blocks(bl) <= S && Distinct(bl) && Inside(bl, Ins(S)) && Inside(bl, Outs(S))
    ensures Wired(bl, GraphOf(bl, Outs(S)), GraphOf(bl, Ins(S)), |bl|)
  {
    var G, P := GraphOf(bl, Outs(S)), GraphOf(bl, Ins(S));
    GraphIs(bl, Outs(S));
    GraphIs(bl, Ins(S));
    assert Represents(bl, G) && RepresentsIn(bl, P);
    PairedIsMaps(S);
    assert Paired(Blocks(bl)) by {
      forall b, i | b in Blocks(bl) && 0 <= i < |b.out| ensures OutLinked(Blocks(bl), b, i) {
        assert OutLinked(S, b, i) && Outs(S)[b][i].point in bl;
      }
      forall b, i | b in Blocks(bl) && 0 <= i < |b.inn| ensures InLinked(Blocks(bl), b, i) {
        assert InLinked(S, b, i) && Ins(S)[b][i].point in bl;
      }
    }
    RepresentsWired(bl, G, P, |bl|);
  }

  /** The closing structure_reset, on blocks that are all reached from the first one. */
  method ResetReached(g: BlockGraph, ghost S: set<FlowBlock>)
      returns (status: Status, ghost H: Graph, ghost Q: Graph)
    requires Paired(S) && Distinct(g.blist) && g.blist != [] && Blocks(g.blist) <= S
    requires Inside(g.blist, Ins(S)) && Inside(g.blist, Outs(S))
    requires forall v :: 0 <= v < |g.blist| ==> Reaches(GraphOf(g.blist, Outs(S)), 0, v)
    modifies g`exitlist, g`blist, g.blist`index, g.blist`dfnum, g.blist`numdesc, g.blist`out, g.blist`inn,
        g.blist`immedDom
    ensures |Q| > 0 && (status.Error? <==> |Q[0]| > 0) && (status.Error? <==> |old(g.blist[0].inn)| > 0)
    ensures status.Done? ==> forall b :: b in g.blist <==> b in old(g.blist)
    ensures status.Done? ==>
      Ordered(g.blist, H, Q) && ReversePostorder(H) && |H| == |g.blist| && DominatorsFound(g.blist, H, |g.blist|)
    ensures status.Error? ==> g.blist == old(g.blist)
  {
    ghost var bl, G, P := g.blist, GraphOf(g.blist, Outs(S)), GraphOf(g.blist, Ins(S));
    WiredInside(bl, S);
    PairedIsMaps(S);
    GraphIs(bl, Outs(S));
    GraphsTransposed(bl, Ins(S), Outs(S));
    ghost var entryDesc, labs0 := bl[0].numdesc, OutLabels(bl, |bl|);
    ghost var s;
    status, s := StructureReset(g, G, P);
    H, Q := G, P;
    if status.Done? {
      AfterPass(bl, g.blist, G, P, s, entryDesc, labs0);
      PassResultAt(bl, G, s, entryDesc, labs0, |bl|);
      ReorderedSame(bl, g.blist, G, s);
      H, Q := Renamed(G, s), Renamed(P, s);
    }
  }

  lemma ReorderedSame(bl: seq<FlowBlock>, nb: seq<FlowBlock>, G: Graph, s: Dfs)
    requires IsSpanningTree(G, s) && |bl| == |G| && nb == At(bl, s.rpo)
    ensures forall b :: b in nb <==> b in bl
  {
    forall b | b in bl ensures b in nb {
      var v :| 0 <= v < |bl| && bl[v] == b;
      assert nb[s.index[v]] == b;
    }
    forall b | b in nb ensures b in bl {
      var v :| 0 <= v < |nb| && nb[v] == b;
      assert bl[s.rpo[v]] == b;
    }
  }

  /** remove_unreachable_blocks: when some block is not reached, exactly the reached ones are left,
      numbered anew in reverse postorder, and their immed_dom fields are right.  The closing
      structure_reset fails only when a reached block leads back to the entry. */
  method RemoveAndReset(g: BlockGraph, entry: FlowBlock, ghost S: set<FlowBlock>)
      returns (changed: bool, status: Status, ghost H: Graph, ghost Q: Graph)
    requires S == Blocks(g.blist) && Distinct(g.blist) && Paired(S) && Marked(S) == {}
    requires g.blist != [] && g.blist[0] == entry
    modifies S, g`blist, g`deadblist, g`exitlist
    ensures changed <==> exists b :: b in old(g.blist) && !BlockReaches(old(Outs(S)), entry, b)
    ensures !changed ==> status.Done? && g.blist == old(g.blist)
    ensures changed ==> forall b :: b in g.blist <==> b in old(g.blist) && BlockReaches(old(Outs(S)), entry, b)
    ensures changed && status.Done? ==>
      Ordered(g.blist, H, Q) && ReversePostorder(H) && DominatorsFound(g.blist, H, |g.blist|)
    ensures |Q| > 0 && (changed ==> (status.Error? <==> |Q[0]| > 0))
  {
    status, H, Q := Done, [], [[]];
    changed := RemoveReached(g, entry, S);
    if changed { status, H, Q := ResetReached(g, S); }
  }

  /** The part before the structure_reset. */
  method RemoveReached(g: BlockGraph, entry: FlowBlock, ghost S: set<FlowBlock>) returns (changed: bool)
    requires S == Blocks(g.blist) && Distinct(g.blist) && Paired(S) && Marked(S) == {}
    requires g.blist != [] && g.blist[0] == entry
    modifies S, g`blist, g`deadblist
    ensures Paired(S) && (changed <==> exists b :: b in old(g.blist) && !BlockReaches(old(Outs(S)), entry, b))
    ensures !changed ==> g.blist == old(g.blist)
    ensures changed ==> forall b :: b in g.blist <==> b in old(g.blist) && BlockReaches(old(Outs(S)), entry, b)
    ensures changed ==> Distinct(g.blist) && g.blist != [] && Blocks(g.blist) <= S
    ensures changed ==> Inside(g.blist, Ins(S)) && Inside(g.blist, Outs(S))
    ensures changed ==> forall v :: 0 <= v < |g.blist| ==> Reaches(GraphOf(g.blist, Outs(S)), 0, v)
  {
    ghost var bl, dl, I, O := g.blist, g.deadblist, Ins(S), Outs(S);
    UnreachedIs(bl, O, entry);
    PairedIsMaps(S);
    changed := RemoveUnreachableBlocks(g, entry, S);
    PairedIsMaps(S);
    SomeUnreached(bl, O, entry);
    if changed { PrunedInside(bl, dl, I, O, entry, g.blist, g.deadblist, Ins(S), Outs(S)); }
  }

  lemma SomeUnreached(bl: seq<FlowBlock>, O: EdgeMap, entry: FlowBlock)
    requires Distinct(bl)
    ensures Unreached(bl, O, entry) != [] <==> exists b :: b in bl && !BlockReaches(O, entry, b)
  {
    UnreachedIs(bl, O, entry);
    var u := Unreached(bl, O, entry);
    if u == [] {
      forall b | b in bl ensures BlockReaches(O, entry, b) { assert b !in u; }
    } else {
      FirstUnreached(u, bl, O, entry);
    }
  }

  lemma FirstUnreached(u: seq<FlowBlock>, bl: seq<FlowBlock>, O: EdgeMap, entry: FlowBlock)
    requires u != [] && forall b :: b in u <==> b in bl && !BlockReaches(O, entry, b)
    ensures exists b :: b in bl && !BlockReaches(O, entry, b)
  {
    var b := u[0];
    assert b in u;
  }
}
