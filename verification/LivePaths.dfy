/** What liveness means in the program's own terms: paths of blocks, reads and writes. */
module LivePaths {
  import opened Pcode
  import opened Sequences
  import opened Block
  import opened Dataflow
  import opened Liveness

  // ----- reads and writes of one operation

  predicate Reads(p: PcodeOp, r: nat) {
    exists j :: 0 <= j < |p.inrefs| && p.inrefs[j].reg == r
  }

  /** A call overwrites r0 to r3. */
  predicate Overwrites(p: PcodeOp, r: nat) {
    || (p.output != null && p.output.reg == r)
    || ((p.opcode == Call || p.opcode == CallInd || p.callfd.Function?) && r < 4)
  }

  predicate Untouched(ops: seq<PcodeOp>, n: nat, r: nat)
    requires n <= |ops|
  {
    forall i :: 0 <= i < n ==> !Overwrites(ops[i], r)
  }

  /** Some operation reads r, and none before it has overwritten it. */
  predicate ReadFirst(ops: seq<PcodeOp>, n: nat, r: nat)
    requires n <= |ops|
  {
    exists i :: 0 <= i < n && Reads(ops[i], r) && Untouched(ops, i, r)
  }

  // ----- paths of blocks

  /** The function returns here: nothing follows, and the last operation does not call a function
      that never comes back. */
  predicate Returns(b: FlowBlock)
    reads b`out, b`ops
  {
    b.out == [] && (b.ops == [] || b.ops[|b.ops| - 1].callfd != Function(true))
  }

  /** From the beginning of b, along the out-edges that path numbers: r is read before it is
      overwritten, or one of r0 to r15 is handed to the caller. */
  ghost predicate Needed(S: set<FlowBlock>, b: FlowBlock, path: seq<nat>, r: nat)
    reads S`out, S`ops
    decreases |path|
  {
    && b in S
    && if path == [] then ReadFirst(b.ops, |b.ops|, r) || (Untouched(b.ops, |b.ops|, r) && Returns(b) && r < 16)
       else Untouched(b.ops, |b.ops|, r) && path[0] < |b.out| && Needed(S, b.out[path[0]].point, path[1..], r)
  }

  ghost predicate NeededFrom(S: set<FlowBlock>, b: FlowBlock, r: nat)
    reads S`out, S`ops
  {
    exists path :: Needed(S, b, path, r)
  }

  /** From the end of b. */
  ghost predicate NeededAfter(S: set<FlowBlock>, b: FlowBlock, r: nat)
    requires b in S
    reads S`out, S`ops
  {
    (Returns(b) && r < 16) || exists k :: 0 <= k < |b.out| && NeededFrom(S, b.out[k].point, r)
  }

  // ----- the local sets

  lemma {:induction false} RegsAre(vs: seq<Varnode>, n: nat, r: nat)
    requires n <= |vs|
    ensures r in RegsOf(vs, n) <==> exists j :: 0 <= j < n && vs[j].reg == r
  {
    if n > 0 { RegsAre(vs, n - 1, r); }
  }

  lemma SetsOfOp(p: PcodeOp, r: nat)
    ensures r in Uses(p) <==> Reads(p, r)
    ensures r in Writes(p) <==> Overwrites(p, r)
  {
    RegsAre(p.inrefs, |p.inrefs|, r);
  }

  lemma {:induction false} KillIs(ops: seq<PcodeOp>, n: nat, r: nat)
    requires n <= |ops|
    ensures r in KillTo(ops, n) <==> !Untouched(ops, n, r)
  {
    if n > 0 {
      KillIs(ops, n - 1, r);
      SetsOfOp(ops[n - 1], r);
    }
  }

  lemma {:induction false} GenIs(ops: seq<PcodeOp>, n: nat, r: nat)
    requires n <= |ops|
    ensures r in GenTo(ops, n) <==> ReadFirst(ops, n, r)
  {
    if n > 0 {
      GenIs(ops, n - 1, r);
      KillIs(ops, n - 1, r);
      SetsOfOp(ops[n - 1], r);
    }
  }

  lemma AskedIs(b: FlowBlock, r: nat)
    ensures r in Asked(|b.out|, b.ops) <==> Returns(b) && r < 16
  {
  }

  // ----- the global sets

  ghost predicate AllSummarized(S: set<FlowBlock>)
    reads S`ops, S`liveGen, S`liveKill
  {
    forall c :: c in S ==> Summarized(c)
  }

  /** y is the system of the blocks, whose local sets are those of their operations. */
  ghost predicate Describing(S: set<FlowBlock>, y: System<FlowBlock>)
    reads S`out, S`ops, S`liveGen, S`liveKill
  {
    AllDescribed(y, S) && AllSummarized(S)
  }

  lemma {:induction false} AlongIs(S: set<FlowBlock>, y: System<FlowBlock>, b: FlowBlock, path: seq<nat>, r: nat)
    requires Describing(S, y) && b in S
    ensures LiveAlong(y, b, path, r) <==> Needed(S, b, path, r)
    decreases |path|
  {
    assert Summarized(b) && Describes(y, b);
    KillIs(b.ops, |b.ops|, r);
    GenIs(b.ops, |b.ops|, r);
    AskedIs(b, r);
    if path != [] && path[0] < |b.out| {
      assert y.succ[b][path[0]] in y.succ;
      AlongIs(S, y, b.out[path[0]].point, path[1..], r);
    }
  }

  lemma LiveIs(S: set<FlowBlock>, y: System<FlowBlock>, b: FlowBlock, r: nat)
    requires Describing(S, y) && b in S
    ensures Live(y, b, r) <==> NeededFrom(S, b, r)
  {
    if Live(y, b, r) {
      var path :| LiveAlong(y, b, path, r);
      AlongIs(S, y, b, path, r);
    }
    if NeededFrom(S, b, r) {
      var path :| Needed(S, b, path, r);
      AlongIs(S, y, b, path, r);
    }
  }

  lemma LiveAfterIs(S: set<FlowBlock>, y: System<FlowBlock>, b: FlowBlock, r: nat)
    requires Describing(S, y) && b in S && b in y.succ
    ensures LiveAfter(y, b, r) <==> NeededAfter(S, b, r)
  {
    assert Describes(y, b);
    AskedIs(b, r);
    forall k | 0 <= k < |b.out| ensures Live(y, y.succ[b][k], r) <==> NeededFrom(S, b.out[k].point, r) {
      assert y.succ[b][k] in y.succ;
      LiveIs(S, y, b.out[k].point, r);
    }
  }

  /** The fields hold exactly the registers that are needed on some path. */
  lemma FieldsAreNeeded(S: set<FlowBlock>, y: System<FlowBlock>)
    requires Describing(S, y) && IsLive(y, LiveSets(S))
    ensures FieldsNeeded(S)
  {
    forall b, r | b in S
      ensures (r in b.liveIn <==> NeededFrom(S, b, r)) && (r in b.liveOut <==> NeededAfter(S, b, r)) {
      assert Describes(y, b);
      assert LiveSets(S).ins[b] == b.liveIn && LiveSets(S).outs[b] == b.liveOut;
      LiveIs(S, y, b, r);
      LiveAfterIs(S, y, b, r);
    }
  }

  /** compute_local_live_sets and compute_global_live_sets: from empty sets, exactly the registers
      that are needed. */
  method ComputeLiveSets(g: BlockGraph, ghost S: set<FlowBlock>)
    requires S == Blocks(g.blist) && Distinct(g.blist)
    requires forall b, k :: b in S && 0 <= k < |b.out| ==> b.out[k].point in S
    requires forall b :: b in S ==> b.liveIn == {} && b.liveOut == {}
    modifies S`liveGen, S`liveKill, S`liveIn, S`liveOut
    ensures FieldsNeeded(S)
  {
    LocalSets(g, S);
    GlobalSets(g, S);
  }

  /** Every block's fields hold exactly what is needed. */
  ghost predicate FieldsNeeded(S: set<FlowBlock>)
    reads S`out, S`ops, S`liveIn, S`liveOut
  {
    && (forall b, r :: b in S ==> (r in b.liveIn <==> NeededFrom(S, b, r)))
    && (forall b, r :: b in S ==> (r in b.liveOut <==> NeededAfter(S, b, r)))
  }

  method LocalSets(g: BlockGraph, ghost S: set<FlowBlock>)
    requires S == Blocks(g.blist)
    requires forall b, k :: b in S && 0 <= k < |b.out| ==> b.out[k].point in S
    modifies S`liveGen, S`liveKill
    ensures WellFormed(S) && AllSummarized(S)
  {
    ComputeLocalLiveSets(g);
    forall b | b in S ensures Summarized(b) { assert b in g.blist; }
  }

  method GlobalSets(g: BlockGraph, ghost S: set<FlowBlock>)
    requires S == Blocks(g.blist) && Distinct(g.blist) && WellFormed(S) && AllSummarized(S)
    requires forall b :: b in S ==> b.liveIn == {} && b.liveOut == {}
    modifies S`liveIn, S`liveOut
    ensures FieldsNeeded(S)
  {
    ghost var y := BlockSystem(S);
    SystemDescribes(S, y);
    RunGlobal(g, S, y);
    FieldsAreNeeded(S, y);
  }

  lemma SystemDescribes(S: set<FlowBlock>, y: System<FlowBlock>)
    requires WellFormed(S) && AllSummarized(S) && y == BlockSystem(S)
    ensures Describing(S, y)
  {
  }

  method RunGlobal(g: BlockGraph, ghost S: set<FlowBlock>, ghost y: System<FlowBlock>)
    requires S == Blocks(g.blist) && Distinct(g.blist) && WellFormed(S) && y == BlockSystem(S)
    requires forall b :: b in S ==> b.liveIn == {} && b.liveOut == {}
    modifies S`liveIn, S`liveOut
    ensures IsLive(y, LiveSets(S)) && (old(Describing(S, y)) ==> Describing(S, y))
  {
    ComputeGlobalLiveSets(g, S);
  }
}
