/** Liveness of operations from start to end: the equations of a block graph's operations, both
    passes over them, and the agreement of the result with the blocks' own sets. */
module PerOpResult {
  import opened Graphs
  import opened Sequences
  import opened Pcode
  import opened Block
  import opened Dataflow
  import opened Liveness
  import opened PerOpLiveness
  import opened PerOpPass

  // ----- the equations

  /** Where an operation stands. */
  ghost predicate IsAt(code: Code, p: PcodeOp, i: nat, k: nat) {
    i < |code| && k < |code[i]| && code[i][k] == p
  }

  lemma PlaceExists(code: Code, p: PcodeOp)
    requires p in AllOps(code)
    ensures exists i: nat, k: nat :: IsAt(code, p, i, k)
  {
    var i, k :| 0 <= i < |code| && 0 <= k < |code[i]| && code[i][k] == p;
    assert IsAt(code, p, i, k);
  }

  ghost function BlockOf(code: Code, p: PcodeOp): (i: nat)
    requires p in AllOps(code)
    ensures exists k: nat :: IsAt(code, p, i, k)
  {
    PlaceExists(code, p);
    var i: nat, k: nat :| IsAt(code, p, i, k);
    i
  }

  ghost function SlotOf(code: Code, p: PcodeOp): (k: nat)
    requires p in AllOps(code)
    ensures IsAt(code, p, BlockOf(code, p), k)
  {
    var k: nat :| IsAt(code, p, BlockOf(code, p), k);
    k
  }

  /** The operations that may come after p. */
  ghost function NextOps(G: Graph, code: Code, p: PcodeOp): seq<PcodeOp>
    requires GraphOf(G, code) && p in AllOps(code)
  {
    var i, k := BlockOf(code, p), SlotOf(code, p);
    if k + 1 < |code[i]| then [code[i][k + 1]] else Firsts(code, G[i])
  }

  ghost function ExitOf(G: Graph, code: Code, p: PcodeOp): (r: set<nat>)
    requires GraphOf(G, code) && p in AllOps(code)
    ensures IsRegs(r)
  {
    var i, k := BlockOf(code, p), SlotOf(code, p);
    if k + 1 < |code[i]| then {} else Asked(|G[i]|, code[i])
  }

  ghost function RawOpSystem(G: Graph, code: Code): RawSystem<PcodeOp>
    requires GraphOf(G, code)
  {
    var P := AllOps(code);
    System(map p | p in P :: NextOps(G, code, p), map p | p in P :: Uses(p), map p | p in P ::
        Writes(p), map p | p in P :: ExitOf(G, code, p))
  }

  lemma NextKnown(G: Graph, code: Code, p: PcodeOp, j: nat)
    requires GraphOf(G, code) && p in AllOps(code) && j < |NextOps(G, code, p)|
    ensures NextOps(G, code, p)[j] in AllOps(code)
  {
    var i, k := BlockOf(code, p), SlotOf(code, p);
    var q := NextOps(G, code, p)[j];
    if k + 1 < |code[i]| { assert code[i][k + 1] == q; } else { assert code[G[i][j]][0] == q; }
  }

  ghost function OpSystem(G: Graph, code: Code): (y: System<PcodeOp>)
    requires GraphOf(G, code)
    ensures y.succ.Keys == AllOps(code) && LocalSets(y)
  {
    var y := RawOpSystem(G, code);
    forall p, j | p in y.succ && 0 <= j < |y.succ[p]| ensures y.succ[p][j] in y.succ { NextKnown(G, code, p, j); }
    assert y.Valid();
    y
  }

  lemma SystemStates(G: Graph, code: Code)
    requires GraphOf(G, code) && Apart(code)
    ensures AllStated(OpSystem(G, code), G, code)
  {
    var y := OpSystem(G, code);
    forall i, k | 0 <= i < |code| && 0 <= k < |code[i]| ensures OpStated(y, G, code, i, k) {
      var p := code[i][k];
      assert p in AllOps(code) && IsAt(code, p, BlockOf(code, p), SlotOf(code, p));
      assert BlockOf(code, p) == i && SlotOf(code, p) == k;
    }
  }

  // ----- the order lists every operation once

  lemma {:induction false} FlattenPlace(code: Code, n: nat, m: nat) returns (i: nat, k: nat)
    requires n <= |code| && m < |Flatten(code, n)|
    ensures i < n && k < |code[i]| && |Flatten(code, i)| + k == m && Flatten(code, n)[m] == code[i][k]
  {
    var before := |Flatten(code, n - 1)|;
    if m < before { i, k := FlattenPlace(code, n - 1, m); } else { i, k := n - 1, m - before; }
  }

  lemma FlattenOnce(code: Code)
    requires Apart(code)
    ensures NoRepeats(Flatten(code, |code|), |Flatten(code, |code|)|)
  {
    var F := Flatten(code, |code|);
    forall a, b | 0 <= a < b < |F| ensures F[a] != F[b] {
      var i, k := FlattenPlace(code, |code|, a);
      var j, l := FlattenPlace(code, |code|, b);
    }
    NoRepeatsPairs(F, |F|);
  }

  lemma FlattenAll(code: Code)
    ensures Nodes(Flatten(code, |code|)) == AllOps(code)
  {
    var F := Flatten(code, |code|);
    forall p | p in AllOps(code) ensures p in Nodes(F) {
      var i, k :| 0 <= i < |code| && 0 <= k < |code[i]| && code[i][k] == p;
      FlattenAt(code, |code|, i, k);
    }
    forall p | p in Nodes(F) ensures p in AllOps(code) {
      var m :| 0 <= m < |F| && F[m] == p;
      var i, k := FlattenPlace(code, |code|, m);
    }
  }

  // ----- from fresh operations to the result

  ghost predicate AllFresh(P: set<PcodeOp>)
    reads P`liveGen, P`liveKill, P`liveIn, P`liveOut
  {
    (forall p :: p in P ==> Fresh(p)) && NoneLive(P)
  }

  ghost predicate NoneLive(P: set<PcodeOp>)
    reads P`liveIn, P`liveOut
  {
    forall p :: p in P ==> p.liveIn == {} && p.liveOut == {}
  }

  method LocalSetsBeside(code: Code)
    requires Apart(code) && forall p :: p in AllOps(code) ==> Fresh(p)
    modifies AllOps(code)`liveGen, AllOps(code)`liveKill
    ensures forall p :: p in AllOps(code) ==> LocalAt(p)
    ensures old(NoneLive(AllOps(code))) ==> NoneLive(AllOps(code))
  {
    ComputeLocalLiveSetsP(code);
  }

  /** compute_local_live_sets_p and compute_global_live_sets_p: from operations with empty sets,
      exactly what is live by paths before and after each of them. */
  method LiveSetsP(G: Graph, code: Code)
    requires GraphOf(G, code) && Apart(code) && AllFresh(AllOps(code))
    modifies AllOps(code)`liveGen, AllOps(code)`liveKill, AllOps(code)`liveIn, AllOps(code)`liveOut
    ensures IsLive(OpSystem(G, code), OpSets(AllOps(code)))
  {
    LocalSetsBeside(code);
    var r := StartRun(G, code);
    ComputeGlobalLiveSetsP(G, code, r);
  }

  /** Once the local sets are there, the iteration may start. */
  ghost method StartRun(G: Graph, code: Code) returns (r: Run)
    requires GraphOf(G, code) && Apart(code)
    requires (forall p :: p in AllOps(code) ==> LocalAt(p)) && NoneLive(AllOps(code))
    ensures r.G == G && r.code == code && r.y == OpSystem(G, code) && FieldsStated(r.y) && r.st == OpSets(Ops(r))
  {
    var y, F := OpSystem(G, code), Flatten(code, |code|);
    SystemStates(G, code);
    FlattenOnce(code);
    FlattenAll(code);
    StartsEmpty(y, G, code, F);
    r := Run(y, G, code, F, OpSets(y.succ.Keys));
    forall p | p in y.succ ensures FieldStated(p, y) { assert LocalAt(p); }
  }

  // ----- the two results, as they stand in the fields

  /** G and code are the positions and the operations of the blocks in a list. */
  ghost predicate Describing(bl: seq<FlowBlock>, G: Graph, code: Code)
    reads Blocks(bl)`out, Blocks(bl)`ops
  {
    |bl| == |code| && GraphOf(G, code) &&
        forall i {:trigger DescribedAt(bl, G, code, i)} :: 0 <= i < |bl| ==> DescribedAt(bl, G, code, i)
  }

  ghost predicate DescribedAt(bl: seq<FlowBlock>, G: Graph, code: Code, i: nat)
    requires |bl| == |code| && GraphOf(G, code) && i < |bl|
    reads Blocks(bl)`out, Blocks(bl)`ops
  {
    code[i] == bl[i].ops && |G[i]| == |bl[i].out| &&
        forall k :: 0 <= k < |G[i]| ==> G[i][k] < |bl| && bl[G[i][k]] == bl[i].out[k].point
  }

  ghost function OpsOf(S: set<FlowBlock>): (M: OpsMap)
    reads S`ops
    ensures M.Keys == S
  {
    map b: FlowBlock | b in S :: b.ops
  }

  /** The operations' local sets are what each of them reads and writes. */
  ghost predicate LocalSets(y: System<PcodeOp>) {
    forall p {:trigger y.gen[p]} :: p in y.succ ==> y.gen[p] == Uses(p) && y.kill[p] == Writes(p)
  }

  lemma EquationsMeet(bl: seq<FlowBlock>, S: set<FlowBlock>, G: Graph, code: Code, y: System<PcodeOp>)
    requires S == Blocks(bl) && Liveness.WellFormed(S) && Describing(bl, G, code) &&
        forall b :: b in S ==> Summarized(b)
    requires AllStated(y, G, code) && LocalSets(y)
    ensures AllOpEquations(y, BlockSystem(S), OpsOf(S))
  {
    var yb, M := BlockSystem(S), OpsOf(S);
    forall b | b in M ensures M[b] != [] && BlockEquation(yb, M, b) {
      var i :| 0 <= i < |bl| && bl[i] == b;
      assert DescribedAt(bl, G, code, i) && Summarized(b);
    }
    forall b, k | b in M && 0 <= k < |M[b]| ensures OpEquations(y, yb, M, b, k) {
      var i :| 0 <= i < |bl| && bl[i] == b;
      assert DescribedAt(bl, G, code, i) && OpStated(y, G, code, i, k);
      SameFirsts(bl, S, G, code, i);
    }
  }

  lemma SameFirsts(bl: seq<FlowBlock>, S: set<FlowBlock>, G: Graph, code: Code, i: nat)
    requires S == Blocks(bl) && Liveness.WellFormed(S) && Describing(bl, G, code) && i < |bl|
    ensures var ns := Points(bl[i].out);
        PointsIn(OpsOf(S), ns) && (forall j :: 0 <= j < |G[i]| ==> G[i][j] < |code|) &&
        Firsts(code, G[i]) == FirstOps(OpsOf(S), ns)
  {
    var ns := Points(bl[i].out);
    assert DescribedAt(bl, G, code, i);
    forall j | 0 <= j < |ns| ensures ns[j] in S && ns[j].ops == code[G[i][j]] {
      assert DescribedAt(bl, G, code, G[i][j]);
    }
  }

  /** When both iterations are done, a block's first operation holds the block's live-in set
      and its last operation the block's live-out set. */
  lemma FieldsAgree(bl: seq<FlowBlock>, S: set<FlowBlock>, G: Graph, code: Code, y: System<PcodeOp>, i: nat)
    requires S == Blocks(bl) && Liveness.WellFormed(S) && Describing(bl, G, code) &&
        forall b :: b in S ==> Summarized(b)
    requires AllStated(y, G, code) && LocalSets(y) && i < |bl|
    requires IsLive(y, OpSets(y.succ.Keys)) && IsLive(BlockSystem(S), LiveSets(S))
    ensures code[i][0].liveIn == bl[i].liveIn && code[i][|code[i]| - 1].liveOut == bl[i].liveOut
  {
    EquationsMeet(bl, S, G, code, y);
    assert DescribedAt(bl, G, code, i) && bl[i] in S;
    PerOpAgrees(y, BlockSystem(S), OpsOf(S), OpSets(y.succ.Keys), LiveSets(S), bl[i]);
  }

  /** The blocks' local sets and live sets are computed. */
  ghost predicate BlocksDone(bl: seq<FlowBlock>, S: set<FlowBlock>, G: Graph, code: Code)
    reads S
  {
    && S == Blocks(bl) && Liveness.WellFormed(S) && Describing(bl, G, code)
    && (forall b :: b in S ==> Summarized(b)) && IsLive(BlockSystem(S), LiveSets(S))
  }

  /** Both analyses, run on the same blocks, leave the same sets at the ends of every block. */
  method LiveSetsAgree(bl: seq<FlowBlock>, G: Graph, code: Code, ghost S: set<FlowBlock>)
    requires BlocksDone(bl, S, G, code) && Apart(code) && AllFresh(AllOps(code))
    modifies AllOps(code)`liveGen, AllOps(code)`liveKill, AllOps(code)`liveIn, AllOps(code)`liveOut
    ensures forall i :: 0 <= i < |bl| ==> EndsAgree(bl, code, i)
  {
    LiveSetsBeside(bl, G, code, S);
    AllEndsAgree(bl, S, G, code);
  }

  /** The blocks are not touched. */
  method LiveSetsBeside(bl: seq<FlowBlock>, G: Graph, code: Code, ghost S: set<FlowBlock>)
    requires GraphOf(G, code) && Apart(code) && AllFresh(AllOps(code))
    modifies AllOps(code)`liveGen, AllOps(code)`liveKill, AllOps(code)`liveIn, AllOps(code)`liveOut
    ensures IsLive(OpSystem(G, code), OpSets(AllOps(code)))
    ensures old(BlocksDone(bl, S, G, code)) ==> BlocksDone(bl, S, G, code)
  {
    LiveSetsP(G, code);
  }

  ghost predicate EndsAgree(bl: seq<FlowBlock>, code: Code, i: nat)
    requires i < |bl|
    reads Blocks(bl)`liveIn, Blocks(bl)`liveOut, AllOps(code)`liveIn, AllOps(code)`liveOut
  {
    && i < |code| && code[i] != []
    && code[i][0].liveIn == bl[i].liveIn && code[i][|code[i]| - 1].liveOut == bl[i].liveOut
  }

  lemma AllEndsAgree(bl: seq<FlowBlock>, S: set<FlowBlock>, G: Graph, code: Code)
    requires BlocksDone(bl, S, G, code) && Apart(code) && IsLive(OpSystem(G, code), OpSets(AllOps(code)))
    ensures forall i :: 0 <= i < |bl| ==> EndsAgree(bl, code, i)
  {
    SystemStates(G, code);
    forall i | 0 <= i < |bl| ensures EndsAgree(bl, code, i) { FieldsAgree(bl, S, G, code, OpSystem(G, code), i); }
  }
}
