/** Liveness of core registers: the local sets of a block, and the global iteration
    over blocks. */
module Liveness {
  import opened Pcode
  import opened Sequences
  import opened Block
  import opened Dataflow

  const CORE_REGS: nat := 16
  const SCRATCH_REGS: seq<nat> := [0, 1, 2, 3]

  // ----- one operation

  /** The registers among the first n varnodes. */
  function RegsOf(vs: seq<Varnode>, n: nat): (s: set<nat>)
    requires n <= |vs|
    ensures IsRegs(s)
  {
    if n == 0 then {} else RegsOf(vs, n - 1) + if vs[n - 1].reg == -1 then {} else {vs[n - 1].reg as nat}
  }

  function Uses(p: PcodeOp): (s: set<nat>)
    ensures IsRegs(s)
  {
    RegsOf(p.inrefs, |p.inrefs|)
  }

  /** A call overwrites the scratch registers. */
  function Writes(p: PcodeOp): set<nat> {
    (if p.IsCall() then {0, 1, 2, 3} else {}) + if p.output != null &&
        p.output.reg >= 0 then {p.output.reg as nat} else {}
  }

  /** What is live before an operation, from what is live after it. */
  function Transfer(p: PcodeOp, after: set<nat>): set<nat> {
    (after - Writes(p)) + Uses(p)
  }

  // ----- a block's operations

  function GenTo(ops: seq<PcodeOp>, n: nat): (s: set<nat>)
    requires n <= |ops|
    ensures IsRegs(s)
  {
    if n == 0 then {} else GenTo(ops, n - 1) + (Uses(ops[n - 1]) - KillTo(ops, n - 1))
  }

  function KillTo(ops: seq<PcodeOp>, n: nat): set<nat>
    requires n <= |ops|
  {
    if n == 0 then {} else KillTo(ops, n - 1) + Writes(ops[n - 1])
  }

  /** The operations from k up to n, one after the other, backward. */
  function Through(ops: seq<PcodeOp>, k: nat, n: nat, after: set<nat>): set<nat>
    requires k <= n <= |ops|
    decreases n - k
  {
    if k == n then after else Transfer(ops[k], Through(ops, k + 1, n, after))
  }

  lemma {:induction false} ThroughLast(ops: seq<PcodeOp>, k: nat, n: nat, after: set<nat>)
    requires k < n <= |ops|
    ensures Through(ops, k, n, after) == Through(ops, k, n - 1, Transfer(ops[n - 1], after))
    decreases n - k
  {
    if k < n - 1 { ThroughLast(ops, k + 1, n, after); }
  }

  /** A block's gen and kill sets summarize its operations: together they are the
      composition of the operations' transfers. */
  lemma {:induction false} GenKillCompose(ops: seq<PcodeOp>, n: nat, after: set<nat>)
    requires n <= |ops|
    ensures Through(ops, 0, n, after) == (after - KillTo(ops, n)) + GenTo(ops, n)
  {
    if n > 0 {
      ThroughLast(ops, 0, n, after);
      GenKillCompose(ops, n - 1, Transfer(ops[n - 1], after));
    }
  }

  /** The block's local sets summarize its operations. */
  ghost predicate Summarized(b: FlowBlock)
    reads b`ops, b`liveGen, b`liveKill
  {
    b.liveGen == GenTo(b.ops, |b.ops|) && b.liveKill == KillTo(b.ops, |b.ops|)
  }

  /** compute_local_live_sets for one block. */
  method ComputeLocalLiveSet(b: FlowBlock)
    modifies b`liveGen, b`liveKill
    ensures Summarized(b)
  {
    b.liveGen := {};
    b.liveKill := {};
    var i := 0;
    while i < |b.ops|
      invariant 0 <= i <= |b.ops|
      invariant b.liveGen == GenTo(b.ops, i) && b.liveKill == KillTo(b.ops, i)
    {
      var p := b.ops[i];
      GenOp(b, p);
      KillOp(b, p);
      i := i + 1;
    }
  }

  method GenOp(b: FlowBlock, p: PcodeOp)
    modifies b`liveGen
    ensures b.liveGen == old(b.liveGen) + (Uses(p) - b.liveKill)
  {
    var j := 0;
    while j < |p.inrefs|
      invariant 0 <= j <= |p.inrefs|
      invariant b.liveGen == old(b.liveGen) + (RegsOf(p.inrefs, j) - b.liveKill)
    {
      var r := p.inrefs[j].reg;
      if r != -1 {
        if r !in b.liveKill { b.liveGen := b.liveGen + {r as nat}; }
      }
      j := j + 1;
    }
  }

  method KillOp(b: FlowBlock, p: PcodeOp)
    modifies b`liveKill
    ensures b.liveKill == old(b.liveKill) + Writes(p)
  {
    if p.IsCall() {
      var j := 0;
      while j < |SCRATCH_REGS|
        invariant 0 <= j <= 4
        invariant b.liveKill == old(b.liveKill) + set k | 0 <= k < j :: SCRATCH_REGS[k]
      {
        b.liveKill := b.liveKill + {SCRATCH_REGS[j]};
        j := j + 1;
      }
      assert SCRATCH_REGS[0] == 0 && SCRATCH_REGS[1] == 1 && SCRATCH_REGS[2] == 2 && SCRATCH_REGS[3] == 3;
      assert (set k | 0 <= k < 4 :: SCRATCH_REGS[k]) == {0, 1, 2, 3};
    }
    if p.output != null && p.output.reg >= 0 { b.liveKill := b.liveKill + {p.output.reg as nat}; }
  }

  /** compute_local_live_sets. */
  method ComputeLocalLiveSets(g: BlockGraph)
    modifies Blocks(g.blist)`liveGen, Blocks(g.blist)`liveKill
    ensures forall b :: b in g.blist ==> Summarized(b)
  {
    var i := 0;
    while i < |g.blist|
      invariant 0 <= i <= |g.blist|
      invariant forall b :: b in g.blist[..i] ==> Summarized(b)
    {
      assert g.blist[i] in Blocks(g.blist) && g.blist[..i + 1] == g.blist[..i] + [g.blist[i]];
      ComputeLocalLiveSet(g.blist[i]);
      i := i + 1;
    }
    assert g.blist[..i] == g.blist;
  }

  // ----- the equations of a block graph

  predicate NoReturn(ops: seq<PcodeOp>) {
    ops != [] && ops[|ops| - 1].callfd.Function? && ops[|ops| - 1].callfd.isNoReturn
  }

  /** What the caller may ask for when the function ends at a block. */
  function Asked(outs: nat, ops: seq<PcodeOp>): (s: set<nat>)
    ensures IsRegs(s)
  {
    if outs == 0 && !NoReturn(ops) then Upto(CORE_REGS) else {}
  }

  function Points(es: seq<BlockEdge>): (r: seq<FlowBlock>)
    ensures |r| == |es| && forall k :: 0 <= k < |es| ==> r[k] == es[k].point
  {
    seq(|es|, k requires 0 <= k < |es| => es[k].point)
  }

  /** All edges stay among the blocks, and the local sets hold registers. */
  ghost predicate WellFormed(S: set<FlowBlock>)
    reads S`out, S`liveGen
  {
    forall b :: b in S ==> IsRegs(b.liveGen) && forall k :: 0 <= k < |b.out| ==> b.out[k].point in S
  }

  ghost function RawSystemOf(S: set<FlowBlock>): RawSystem<FlowBlock>
    reads S`out, S`ops, S`liveGen, S`liveKill
  {
    System(map b | b in S :: Points(b.out), map b | b in S :: b.liveGen, map b | b in S :: b.liveKill,
           map b | b in S :: Asked(|b.out|, b.ops))
  }

  lemma SystemValid(S: set<FlowBlock>)
    requires WellFormed(S)
    ensures RawSystemOf(S).Valid()
  {
    var y := RawSystemOf(S);
    forall b, k | b in y.succ && 0 <= k < |y.succ[b]| ensures y.succ[b][k] in y.succ {
      assert b in S && y.succ[b][k] == b.out[k].point;
    }
  }

  ghost function BlockSystem(S: set<FlowBlock>): (y: System<FlowBlock>)
    requires WellFormed(S)
    reads S`out, S`ops, S`liveGen, S`liveKill
  {
    SystemValid(S);
    RawSystemOf(S)
  }

  /** The equations of one block. */
  ghost predicate Describes(y: System<FlowBlock>, b: FlowBlock)
    reads b`out, b`ops, b`liveGen, b`liveKill
  {
    b in y.succ && y.succ[b] == Points(b.out) && y.gen[b] == b.liveGen && y.kill[b] == b.liveKill &&
        y.exit[b] == Asked(|b.out|, b.ops)
  }

  ghost function LiveIns(S: set<FlowBlock>): (M: LiveMap<FlowBlock>)
    reads S`liveIn
    ensures M.Keys == S
  {
    map b | b in S :: b.liveIn
  }

  ghost function LiveOuts(S: set<FlowBlock>): (M: LiveMap<FlowBlock>)
    reads S`liveOut
    ensures M.Keys == S
  {
    map b | b in S :: b.liveOut
  }

  /** The live-out set of a block, from its successors. */
  method UniteSuccessors(b: FlowBlock, ghost S: set<FlowBlock>, ghost ns: seq<FlowBlock>, ghost ins: LiveMap<FlowBlock>)
    requires b in S && ns == Points(b.out) && ins == LiveIns(S) && forall k :: 0 <= k < |ns| ==> ns[k] in S
    modifies b`liveOut
    ensures b.liveOut == UnionOf(ns, ins, |ns|)
  {
    b.liveOut := {};
    var j := 0;
    while j < |b.out|
      invariant 0 <= j <= |b.out| && b.liveOut == UnionOf(ns, ins, j)
    {
      var outb := b.out[j].point;
      assert ns[j] == outb;
      b.liveOut := b.liveOut + outb.liveIn;
      j := j + 1;
    }
  }

  method SetLiveOut(b: FlowBlock, ghost S: set<FlowBlock>, ghost ns: seq<FlowBlock>, ghost ins: LiveMap<FlowBlock>)
    requires b in S && ns == Points(b.out) && ins == LiveIns(S) && forall k :: 0 <= k < |ns| ==> ns[k] in S
    modifies b`liveOut
    ensures b.liveOut == UnionOf(ns, ins, |ns|) + Asked(|b.out|, b.ops)
  {
    UniteSuccessors(b, S, ns, ins);
    if |b.out| == 0 && !NoReturn(b.ops) { b.liveOut := b.liveOut + Upto(CORE_REGS); }
  }

  method SetLiveIn(b: FlowBlock)
    modifies b`liveIn
    ensures b.liveIn == (b.liveOut - b.liveKill) + b.liveGen
  {
    b.liveIn := (b.liveOut - b.liveKill) + b.liveGen;
  }

  ghost function LiveSets(S: set<FlowBlock>): (st: Sets<FlowBlock>)
    reads S`liveIn, S`liveOut
    ensures st.ins.Keys == st.outs.Keys == S
  {
    Sets(LiveIns(S), LiveOuts(S))
  }

  lemma SetsUpdated(S: set<FlowBlock>, b: FlowBlock, st: Sets<FlowBlock>)
    requires b in S && st.ins.Keys == st.outs.Keys == S
    requires forall c :: c in S && c != b ==> st.ins[c] == c.liveIn && st.outs[c] == c.liveOut
    ensures LiveSets(S) == Sets(st.ins[b := b.liveIn], st.outs[b := b.liveOut])
  {
    assert LiveIns(S) == st.ins[b := b.liveIn];
    assert LiveOuts(S) == st.outs[b := b.liveOut];
  }

  /** The body of the loop of compute_global_live_sets, up to the comparison. */
  method Recompute(b: FlowBlock, ghost S: set<FlowBlock>, ghost y: System<FlowBlock>, ghost st: Sets<FlowBlock>)
    requires b in S && S == y.succ.Keys && Describes(y, b) && st == LiveSets(S)
    modifies b`liveIn, b`liveOut
    ensures b.liveOut == OutOf(y, st.ins, b) && b.liveIn == InOf(y, OutOf(y, st.ins, b), b)
  {
    SetLiveOut(b, S, y.succ[b], st.ins);
    SetLiveIn(b);
  }

  /** The body of the loop of compute_global_live_sets. */
  method UpdateBlock(b: FlowBlock, changed: bool, ghost S: set<FlowBlock>, ghost y: System<FlowBlock>,
      ghost st: Sets<FlowBlock>)
    returns (changed': bool)
    requires b in S && S == y.succ.Keys && Describes(y, b) && st == LiveSets(S)
    modifies b`liveIn, b`liveOut
    ensures LiveSets(S) == Updated(y, st, b) && changed' == (changed || ChangesAt(y, st, b))
  {
    var liveOut0, liveIn0 := b.liveOut, b.liveIn;
    assert liveOut0 == st.outs[b] && liveIn0 == st.ins[b];
    Recompute(b, S, y, st);
    SetsUpdated(S, b, st);
    changed' := changed;
    if !changed && (liveOut0 != b.liveOut || liveIn0 != b.liveIn) { changed' := true; }
  }

  ghost predicate AllDescribed(y: System<FlowBlock>, S: set<FlowBlock>)
    reads S`out, S`ops, S`liveGen, S`liveKill
  {
    S == y.succ.Keys && forall b {:trigger Describes(y, b)} :: b in S ==> Describes(y, b)
  }

  /** What a pass has computed after n blocks. */
  ghost predicate Computed(bl: seq<FlowBlock>, S: set<FlowBlock>, y: System<FlowBlock>, st: Sets<FlowBlock>, n: nat,
      changed: bool)
    reads S`liveIn, S`liveOut
  {
    Fits(y, st) && AllIn(y, bl) && n <= |bl| && LiveSets(S) == PassOver(y, bl, st, n) &&
        changed == PassChanges(y, bl, st, n)
  }

  /** One turn of the loop of compute_global_live_sets, the n-th from the end of the list. */
  method Turn(bl: seq<FlowBlock>, i: nat, changed: bool, ghost n: nat, ghost n1: nat, ghost S: set<FlowBlock>,
      ghost y: System<FlowBlock>, ghost st: Sets<FlowBlock>)
    returns (changed': bool)
    requires AllDescribed(y, S) && i < |bl| && n + i + 1 == |bl| && n1 == n + 1
    requires Computed(bl, S, y, st, n, changed)
    modifies S`liveIn, S`liveOut
    ensures AllDescribed(y, S) && Computed(bl, S, y, st, n1, changed')
  {
    var b := bl[i];
    assert b in Nodes(bl) && Describes(y, b);
    changed' := TurnBlock(b, i, changed, n, n1, bl, S, y, st);
  }

  method TurnBlock(b: FlowBlock, ghost i: nat, changed: bool, ghost n: nat, ghost n1: nat, ghost bl: seq<FlowBlock>,
      ghost S: set<FlowBlock>,
                   ghost y: System<FlowBlock>, ghost st: Sets<FlowBlock>)
    returns (changed': bool)
    requires b in S && S == y.succ.Keys && Describes(y, b) && i < |bl| && n1 == n + 1 && n1 + i == |bl| && b == bl[i]
    requires Computed(bl, S, y, st, n, changed)
    modifies b`liveIn, b`liveOut
    ensures Computed(bl, S, y, st, n1, changed')
  {
    PassNextAt(y, bl, st, n, n1, i, b);
    changed' := UpdateBlock(b, changed, S, y, LiveSets(S));
  }

  /** One pass of compute_global_live_sets, from the last block to the first; n is their number. */
  method OnePass(bl: seq<FlowBlock>, ghost S: set<FlowBlock>, ghost y: System<FlowBlock>,
      ghost st: Sets<FlowBlock>) returns (changed: bool, ghost n: nat)
    requires AllDescribed(y, S) && Fits(y, st) && AllIn(y, bl) && st == LiveSets(S)
    modifies S`liveIn, S`liveOut
    ensures n == |bl| && Computed(bl, S, y, st, n, changed)
  {
    changed := false;
    var i := |bl|;
    n := 0;
    while i > 0
      invariant 0 <= i && n + i == |bl|
      invariant AllDescribed(y, S) && Computed(bl, S, y, st, n, changed)
    {
      i := i - 1;
      ghost var n1 := n + 1;
      changed := Turn(bl, i, changed, n, n1, S, y, st);
      n := n1;
      assert AllDescribed(y, S) && Computed(bl, S, y, st, n, changed);
    }
  }

  /** compute_global_live_sets: from empty sets, exactly what is live by paths. */
  method ComputeGlobalLiveSets(g: BlockGraph, ghost S: set<FlowBlock>)
    requires S == Blocks(g.blist) && Distinct(g.blist) && WellFormed(S)
    requires forall b :: b in S ==> b.liveIn == {} && b.liveOut == {}
    modifies S`liveIn, S`liveOut
    ensures IsLive(old(BlockSystem(S)), LiveSets(S))
  {
    ghost var y := BlockSystem(S);
    assert Nodes(g.blist) == Blocks(g.blist);
    StartGrowing(y, g.blist, LiveSets(S));
    Iterate(g.blist, S, y);
  }

  method Iterate(bl: seq<FlowBlock>, ghost S: set<FlowBlock>, ghost y: System<FlowBlock>)
    requires AllDescribed(y, S) && Lists(bl, y) && GrowingTo(y, bl, LiveSets(S), |bl|)
    modifies S`liveIn, S`liveOut
    ensures IsLive(y, LiveSets(S))
  {
    var changed := true;
    while changed
      invariant GrowingTo(y, bl, LiveSets(S), |bl|)
      invariant !changed ==> IsLive(y, LiveSets(S))
      decreases 2 * REGS * |bl| - WeightOf(bl, y, LiveSets(S)), if changed then 1 else 0
    {
      ghost var st, n := LiveSets(S), 0;
      changed, n := OnePass(bl, S, y, st);
      AfterPass(y, bl, st, LiveSets(S));
    }
  }

  /** The fields hold the solution: r is live into a block when some path from it uses r, or
      leaves it to a returning exit, before r is written. */
  lemma LiveFields(S: set<FlowBlock>, b: FlowBlock, r: nat)
    requires WellFormed(S) && b in S && IsLive(BlockSystem(S), LiveSets(S))
    ensures r in b.liveIn <==> Live(BlockSystem(S), b, r)
    ensures r in b.liveOut <==> LiveAfter(BlockSystem(S), b, r)
  {
    assert LiveSets(S).ins[b] == b.liveIn && LiveSets(S).outs[b] == b.liveOut;
  }
}
