/** Liveness before and after every single operation, and its agreement with
    the liveness of whole blocks. */
module PerOpLiveness {
  import opened Pcode
  import opened Block
  import opened Dataflow
  import opened Liveness

  /** The operations of each block. */
  type OpsMap = map<FlowBlock, seq<PcodeOp>>

  ghost predicate NonEmpty(M: OpsMap) {
    forall b {:trigger M[b]} :: b in M ==> M[b] != []
  }

  ghost predicate PointsIn(M: OpsMap, ns: seq<FlowBlock>) {
    forall k :: 0 <= k < |ns| ==> ns[k] in M && M[ns[k]] != []
  }

  /** The first operations of the blocks in a list. */
  function FirstOps(M: OpsMap, ns: seq<FlowBlock>): (r: seq<PcodeOp>)
    requires forall k :: 0 <= k < |ns| ==> ns[k] in M && M[ns[k]] != []
    ensures |r| == |ns| && forall k :: 0 <= k < |ns| ==> r[k] == M[ns[k]][0]
  {
    seq(|ns|, k requires 0 <= k < |ns| => M[ns[k]][0])
  }

  /** The equations of blocks, with the operations of each block summarized. */
  ghost predicate BlockEquations(yb: System<FlowBlock>, M: OpsMap) {
    && yb.succ.Keys == M.Keys && NonEmpty(M)
    && forall b {:trigger BlockEquation(yb, M, b)} :: b in M ==> BlockEquation(yb, M, b)
  }

  ghost predicate BlockEquation(yb: System<FlowBlock>, M: OpsMap, b: FlowBlock)
    requires b in M && b in yb.succ
  {
    yb.gen[b] == GenTo(M[b], |M[b]|) && yb.kill[b] == KillTo(M[b], |M[b]|)
  }

  /** The equations of operation k of block b: it is followed by the next one of the block,
      or, at the end of the block, by the first ones of the block's successors. */
  ghost predicate OpEquations(yo: System<PcodeOp>, yb: System<FlowBlock>, M: OpsMap, b: FlowBlock, k: nat)
    requires b in M && k < |M[b]| && b in yb.succ
  {
    var p := M[b][k];
    && p in yo.succ && yo.gen[p] == Uses(p) && yo.kill[p] == Writes(p)
    && PointsIn(M, yb.succ[b])
    && (k + 1 < |M[b]| ==> yo.succ[p] == [M[b][k + 1]] && yo.exit[p] == {})
    && (k + 1 == |M[b]| ==> yo.succ[p] == FirstOps(M, yb.succ[b]) && yo.exit[p] == yb.exit[b])
  }

  ghost predicate AllOpEquations(yo: System<PcodeOp>, yb: System<FlowBlock>, M: OpsMap) {
    BlockEquations(yb, M) && forall b, k {:trigger OpEquations(yo, yb, M, b, k)} ::
        b in M && 0 <= k < |M[b]| ==> OpEquations(yo, yb, M, b, k)
  }

  // ----- exact liveness solves the equations

  lemma LiveIsFixed<T>(y: System<T>, st: Sets<T>, a: T)
    requires Fits(y, st) && IsLive(y, st) && a in y.succ
    ensures FixedAt(y, st.ins, st.outs, a)
  {
    forall r: nat ensures r in st.outs[a] <==> r in OutOf(y, st.ins, a) {
      UnionHas(y.succ[a], st.ins, |y.succ[a]|, r);
    }
    forall r: nat ensures r in st.ins[a] <==> r in InOf(y, st.outs[a], a) {
      InLive(y, a, r);
    }
  }

  ghost predicate Solves<T>(y: System<T>, st: Sets<T>)
    requires Fits(y, st)
  {
    forall a {:trigger FixedAt(y, st.ins, st.outs, a)} :: a in y.succ ==> FixedAt(y, st.ins, st.outs, a)
  }

  lemma LiveSolves<T>(y: System<T>, st: Sets<T>)
    requires Fits(y, st) && IsLive(y, st)
    ensures Solves(y, st)
  {
    forall a | a in y.succ ensures FixedAt(y, st.ins, st.outs, a) { LiveIsFixed(y, st, a); }
  }

  // ----- from operations to blocks

  /** What is live before operation k of block b by the operations' equations lies in
      what the block's live-out set becomes on the way back to k. */
  lemma {:induction false} OpLiveInBlock(yo: System<PcodeOp>, yb: System<FlowBlock>, M: OpsMap, stb: Sets<FlowBlock>,
                                         b: FlowBlock, k: nat, path: seq<nat>, r: nat)
    requires AllOpEquations(yo, yb, M) && Fits(yb, stb) && Solves(yb, stb)
    requires b in M && k < |M[b]| && LiveAlong(yo, M[b][k], path, r)
    ensures r in Through(M[b], k, |M[b]|, stb.outs[b])
    decreases |path|
  {
    var ops, n := M[b], |M[b]|;
    assert OpEquations(yo, yb, M, b, k) && FixedAt(yb, stb.ins, stb.outs, b);
    if path != [] {
      if k + 1 < n {
        OpLiveInBlock(yo, yb, M, stb, b, k + 1, path[1..], r);
      } else {
        var j := path[0];
        var c := yb.succ[b][j];
        OpLiveInBlock(yo, yb, M, stb, c, 0, path[1..], r);
        GenKillCompose(M[c], |M[c]|, stb.outs[c]);
        assert BlockEquation(yb, M, c);
        assert FixedAt(yb, stb.ins, stb.outs, c);
        UnionHas(yb.succ[b], stb.ins, |yb.succ[b]|, r);
      }
    }
  }

  // ----- from blocks to operations

  ghost function AtFirst(M: OpsMap, ins: LiveMap<PcodeOp>): (r: LiveMap<FlowBlock>)
    requires NonEmpty(M) && forall b, k :: b in M && 0 <= k < |M[b]| ==> M[b][k] in ins
  {
    map b | b in M :: ins[M[b][0]]
  }

  ghost function AtLast(M: OpsMap, outs: LiveMap<PcodeOp>): (r: LiveMap<FlowBlock>)
    requires NonEmpty(M) && forall b, k :: b in M && 0 <= k < |M[b]| ==> M[b][k] in outs
  {
    map b | b in M :: outs[M[b][|M[b]| - 1]]
  }

  lemma MiddleOp(yo: System<PcodeOp>, sto: Sets<PcodeOp>, p: PcodeOp, q: PcodeOp)
    requires Fits(yo, sto) && p in yo.succ && FixedAt(yo, sto.ins, sto.outs, p)
    requires yo.succ[p] == [q] && yo.exit[p] == {} && yo.gen[p] == Uses(p) && yo.kill[p] == Writes(p)
    ensures q in yo.succ && sto.ins[p] == Transfer(p, sto.ins[q])
  {
    var ns := yo.succ[p];
    assert ns[0] == q && q in yo.succ;
    assert UnionOf(ns, sto.ins, 1) == UnionOf(ns, sto.ins, 0) + sto.ins[q];
  }

  lemma LastOp(yo: System<PcodeOp>, sto: Sets<PcodeOp>, p: PcodeOp)
    requires Fits(yo, sto) && p in yo.succ && FixedAt(yo, sto.ins, sto.outs, p)
    requires yo.gen[p] == Uses(p) && yo.kill[p] == Writes(p)
    ensures sto.ins[p] == Transfer(p, sto.outs[p])
  {
  }

  /** A solution for the operations goes through a block as the block's transfer does. */
  lemma {:induction false} SolutionThrough(yo: System<PcodeOp>, yb: System<FlowBlock>, M: OpsMap, sto: Sets<PcodeOp>,
      b: FlowBlock, k: nat)
    requires AllOpEquations(yo, yb, M) && Fits(yo, sto) && Solves(yo, sto)
    requires b in M && k < |M[b]| && M[b][k] in yo.succ && M[b][|M[b]| - 1] in yo.succ
    ensures sto.ins[M[b][k]] == Through(M[b], k, |M[b]|, sto.outs[M[b][|M[b]| - 1]])
    decreases |M[b]| - k
  {
    var p := M[b][k];
    assert OpEquations(yo, yb, M, b, k) && FixedAt(yo, sto.ins, sto.outs, p);
    if k + 1 < |M[b]| {
      MiddleOp(yo, sto, p, M[b][k + 1]);
      SolutionThrough(yo, yb, M, sto, b, k + 1);
    } else {
      LastOp(yo, sto, p);
    }
  }

  lemma {:induction false} SameUnion(M: OpsMap, ns: seq<FlowBlock>, ins: LiveMap<PcodeOp>, n: nat)
    requires NonEmpty(M) && PointsIn(M, ns) && (forall b, k :: b in M && 0 <= k < |M[b]| ==> M[b][k] in ins) &&
        n <= |ns|
    ensures UnionOf(FirstOps(M, ns), ins, n) == UnionOf(ns, AtFirst(M, ins), n)
  {
    if n > 0 { SameUnion(M, ns, ins, n - 1); }
  }

  /** Seen at the first and last operations, a solution for the operations solves the blocks. */
  lemma OpSolutionSolvesBlock(yo: System<PcodeOp>, yb: System<FlowBlock>, M: OpsMap, sto: Sets<PcodeOp>, b: FlowBlock)
    requires AllOpEquations(yo, yb, M) && Fits(yo, sto) && Solves(yo, sto)
    requires (forall c, k :: c in M && 0 <= k < |M[c]| ==> M[c][k] in yo.succ) && b in M
    ensures FixedAt(yb, AtFirst(M, sto.ins), AtLast(M, sto.outs), b)
  {
    OutsSolve(yo, yb, M, sto, b);
    SolutionThrough(yo, yb, M, sto, b, 0);
    GenKillCompose(M[b], |M[b]|, sto.outs[M[b][|M[b]| - 1]]);
    assert BlockEquation(yb, M, b);
  }

  lemma OutsSolve(yo: System<PcodeOp>, yb: System<FlowBlock>, M: OpsMap, sto: Sets<PcodeOp>, b: FlowBlock)
    requires AllOpEquations(yo, yb, M) && Fits(yo, sto) && Solves(yo, sto)
    requires (forall c, k :: c in M && 0 <= k < |M[c]| ==> M[c][k] in yo.succ) && b in M
    ensures AtLast(M, sto.outs)[b] == OutOf(yb, AtFirst(M, sto.ins), b)
  {
    var last := M[b][|M[b]| - 1];
    assert OpEquations(yo, yb, M, b, |M[b]| - 1) && FixedAt(yo, sto.ins, sto.outs, last);
    SameUnion(M, yb.succ[b], sto.ins, |yb.succ[b]|);
  }

  lemma OpsKnown(yo: System<PcodeOp>, yb: System<FlowBlock>, M: OpsMap)
    requires AllOpEquations(yo, yb, M)
    ensures forall b, k :: b in M && 0 <= k < |M[b]| ==> M[b][k] in yo.succ
  {
    forall c, k | c in M && 0 <= k < |M[c]| ensures M[c][k] in yo.succ { assert OpEquations(yo, yb, M, c, k); }
  }

  /** The two analyses agree on what is live before a block. */
  lemma InsAgree(yo: System<PcodeOp>, yb: System<FlowBlock>, M: OpsMap, sto: Sets<PcodeOp>, stb: Sets<FlowBlock>,
      b: FlowBlock)
    requires AllOpEquations(yo, yb, M) && b in M
    requires Fits(yo, sto) && IsLive(yo, sto) && Fits(yb, stb) && IsLive(yb, stb)
    ensures M[b][0] in yo.succ && sto.ins[M[b][0]] == stb.ins[b]
  {
    OpsKnown(yo, yb, M);
    BlockWithinOps(yo, yb, M, sto, stb, b);
    OpsWithinBlock(yo, yb, M, sto, stb, b);
  }

  /** The two analyses agree: what is live before a block's first operation is what is live
      before the block, and what is live after its last operation is what is live after it. */
  lemma PerOpAgrees(yo: System<PcodeOp>, yb: System<FlowBlock>, M: OpsMap, sto: Sets<PcodeOp>, stb: Sets<FlowBlock>,
      b: FlowBlock)
    requires AllOpEquations(yo, yb, M) && b in M
    requires Fits(yo, sto) && IsLive(yo, sto) && Fits(yb, stb) && IsLive(yb, stb)
    ensures M[b][0] in yo.succ && M[b][|M[b]| - 1] in yo.succ
    ensures sto.ins[M[b][0]] == stb.ins[b] && sto.outs[M[b][|M[b]| - 1]] == stb.outs[b]
  {
    InsAgree(yo, yb, M, sto, stb, b);
    var last := M[b][|M[b]| - 1];
    assert OpEquations(yo, yb, M, b, |M[b]| - 1);
    forall k | 0 <= k < |yb.succ[b]| ensures M[yb.succ[b][k]][0] in yo.succ &&
        sto.ins[M[yb.succ[b][k]][0]] == stb.ins[yb.succ[b][k]] {
      InsAgree(yo, yb, M, sto, stb, yb.succ[b][k]);
    }
    LiveIsFixed(yo, sto, last);
    LiveIsFixed(yb, stb, b);
    SameUnion2(M, yb.succ[b], sto.ins, stb.ins, |yb.succ[b]|);
  }

  lemma {:induction false} SameUnion2(M: OpsMap, ns: seq<FlowBlock>, ins: LiveMap<PcodeOp>, bins: LiveMap<FlowBlock>,
      n: nat)
    requires PointsIn(M, ns) && n <= |ns|
    requires forall k :: 0 <= k < |ns| ==> M[ns[k]][0] in ins && ns[k] in bins && ins[M[ns[k]][0]] == bins[ns[k]]
    ensures UnionOf(FirstOps(M, ns), ins, n) == UnionOf(ns, bins, n)
  {
    if n > 0 { SameUnion2(M, ns, ins, bins, n - 1); }
  }

  lemma BlockWithinOps(yo: System<PcodeOp>, yb: System<FlowBlock>, M: OpsMap, sto: Sets<PcodeOp>, stb: Sets<FlowBlock>,
      b: FlowBlock)
    requires AllOpEquations(yo, yb, M) && b in M && M[b][0] in yo.succ
    requires Fits(yo, sto) && IsLive(yo, sto) && Fits(yb, stb) && IsLive(yb, stb)
    ensures stb.ins[b] <= sto.ins[M[b][0]]
  {
    LiveSolves(yo, sto);
    OpsKnown(yo, yb, M);
    forall c | c in yb.succ ensures FixedAt(yb, AtFirst(M, sto.ins), AtLast(M, sto.outs), c) {
      OpSolutionSolvesBlock(yo, yb, M, sto, c);
    }
    forall r | r in stb.ins[b] ensures r in sto.ins[M[b][0]] {
      var path :| LiveAlong(yb, b, path, r);
      SolutionHasLive(yb, AtFirst(M, sto.ins), AtLast(M, sto.outs), b, path, r);
    }
  }

  lemma OpsWithinBlock(yo: System<PcodeOp>, yb: System<FlowBlock>, M: OpsMap, sto: Sets<PcodeOp>, stb: Sets<FlowBlock>,
      b: FlowBlock)
    requires AllOpEquations(yo, yb, M) && b in M && M[b][0] in yo.succ
    requires Fits(yo, sto) && IsLive(yo, sto) && Fits(yb, stb) && IsLive(yb, stb)
    ensures sto.ins[M[b][0]] <= stb.ins[b]
  {
    LiveSolves(yb, stb);
    forall r | r in sto.ins[M[b][0]] ensures r in stb.ins[b] {
      assert Live(yo, M[b][0], r);
      var path :| LiveAlong(yo, M[b][0], path, r);
      OpWithinBlock(yo, yb, M, stb, b, path, r);
    }
  }

  lemma OpWithinBlock(yo: System<PcodeOp>, yb: System<FlowBlock>, M: OpsMap, stb: Sets<FlowBlock>, b: FlowBlock,
      path: seq<nat>, r: nat)
    requires AllOpEquations(yo, yb, M) && Fits(yb, stb) && Solves(yb, stb) && b in M && LiveAlong(yo, M[b][0], path, r)
    ensures r in stb.ins[b]
  {
    OpLiveInBlock(yo, yb, M, stb, b, 0, path, r);
    GenKillCompose(M[b], |M[b]|, stb.outs[b]);
    assert BlockEquation(yb, M, b);
    assert FixedAt(yb, stb.ins, stb.outs, b);
  }
}
