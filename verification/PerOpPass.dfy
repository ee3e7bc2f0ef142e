/** The iteration that computes liveness before and after every single operation.
    It only reads the block graph, which is passed as values: code lists each block's
    operations, and G each block's successors by position. */
module PerOpPass {
  import opened Graphs
  import opened Sequences
  import opened Pcode
  import opened Block
  import opened Dataflow
  import opened Liveness
  import opened PerOpLiveness

  type Code = seq<seq<PcodeOp>>

  // ----- compute_local_live_sets_p

  /** One operation, whose sets are still empty. */
  method ComputeLocalOp(p: PcodeOp)
    requires p.liveGen == {} && p.liveKill == {}
    modifies p`liveGen, p`liveKill
    ensures p.liveGen == Uses(p) && p.liveKill == Writes(p)
  {
    var j := 0;
    while j < |p.inrefs|
      invariant 0 <= j <= |p.inrefs| && p.liveGen == RegsOf(p.inrefs, j) && p.liveKill == {}
    {
      var r := p.inrefs[j].reg;
      if r != -1 {
        if r !in p.liveKill { p.liveGen := p.liveGen + {r as nat}; }
      }
      j := j + 1;
    }
    if p.IsCall() {
      j := 0;
      while j < |SCRATCH_REGS|
        invariant 0 <= j <= 4
        invariant p.liveKill == set k | 0 <= k < j :: SCRATCH_REGS[k]
        invariant p.liveGen == Uses(p)
      {
        p.liveKill := p.liveKill + {SCRATCH_REGS[j]};
        j := j + 1;
      }
      assert SCRATCH_REGS[0] == 0 && SCRATCH_REGS[1] == 1 && SCRATCH_REGS[2] == 2 && SCRATCH_REGS[3] == 3;
      assert (set k | 0 <= k < 4 :: SCRATCH_REGS[k]) == {0, 1, 2, 3};
    }
    if p.output != null && p.output.reg >= 0 { p.liveKill := p.liveKill + {p.output.reg as nat}; }
  }

  /** No operation stands at two places. */
  ghost predicate Apart(code: Code) {
    forall i, k, j, l ::
        0 <= i < |code| && 0 <= k < |code[i]| && 0 <= j < |code| && 0 <= l < |code[j]| && code[i][k] == code[j][l] ==>
        i == j && k == l
  }

  ghost function AllOps(code: Code): set<PcodeOp> {
    set i, k | 0 <= i < |code| && 0 <= k < |code[i]| :: code[i][k]
  }

  ghost predicate LocalAt(p: PcodeOp)
    reads p`liveGen, p`liveKill
  {
    p.liveGen == Uses(p) && p.liveKill == Writes(p)
  }

  ghost predicate Fresh(p: PcodeOp)
    reads p`liveGen, p`liveKill
  {
    p.liveGen == {} && p.liveKill == {}
  }

  /** The operations in `done` have their local sets, the others of P have empty ones. */
  ghost predicate LocalSofar(P: set<PcodeOp>, done: set<PcodeOp>)
    reads P`liveGen, P`liveKill
  {
    forall p :: p in P ==> if p in done then LocalAt(p) else Fresh(p)
  }

  /** compute_local_live_sets_p, for operations that have not been looked at before. */
  method ComputeLocalLiveSetsP(code: Code)
    requires Apart(code) && forall p :: p in AllOps(code) ==> Fresh(p)
    modifies AllOps(code)`liveGen, AllOps(code)`liveKill
    ensures forall p :: p in AllOps(code) ==> LocalAt(p)
  {
    ghost var P, done := AllOps(code), {};
    var i := 0;
    while i < |code|
      invariant 0 <= i <= |code| && LocalSofar(P, done)
      invariant done == set j, k | 0 <= j < i && 0 <= k < |code[j]| :: code[j][k]
    {
      done := ComputeLocalBlock(code, i, P, done);
      i := i + 1;
    }
    assert done == P;
  }

  /** The operations of block i, from the last one up. */
  method ComputeLocalBlock(code: Code, i: nat, ghost P: set<PcodeOp>, ghost done0: set<PcodeOp>)
      returns (ghost done: set<PcodeOp>)
    requires Apart(code) && i < |code| && P == AllOps(code) && LocalSofar(P, done0)
    requires done0 == set j, k | 0 <= j < i && 0 <= k < |code[j]| :: code[j][k]
    modifies P`liveGen, P`liveKill
    ensures LocalSofar(P, done) && done == set j, k | 0 <= j < i + 1 && 0 <= k < |code[j]| :: code[j][k]
  {
    done := done0;
    var k := |code[i]|;
    while k > 0
      invariant 0 <= k <= |code[i]| && LocalSofar(P, done)
      invariant done == done0 + set l | k <= l < |code[i]| :: code[i][l]
    {
      k := k - 1;
      assert code[i][k] in P && code[i][k] !in done;
      ComputeLocalOp(code[i][k]);
      done := done + {code[i][k]};
    }
  }

  // ----- the order of the pass

  /** The operations of the first n blocks, in order. */
  ghost function Flatten(code: Code, n: nat): seq<PcodeOp>
    requires n <= |code|
  {
    if n == 0 then [] else Flatten(code, n - 1) + code[n - 1]
  }

  lemma {:induction false} FlattenAt(code: Code, n: nat, i: nat, k: nat)
    requires i < n <= |code| && k < |code[i]|
    ensures |Flatten(code, i)| + k < |Flatten(code, n)| && Flatten(code, n)[|Flatten(code, i)| + k] == code[i][k]
  {
    if i < n - 1 { FlattenAt(code, n - 1, i, k); }
  }

  // ----- the equations

  ghost predicate GraphOf(G: Graph, code: Code) {
    |G| == |code| && (forall i :: 0 <= i < |code| ==> code[i] != []) && Graphs.WellFormed(G)
  }

  /** The first operations of the successors. */
  function Firsts(code: Code, ns: seq<nat>): (r: seq<PcodeOp>)
    requires forall j :: 0 <= j < |ns| ==> ns[j] < |code| && code[ns[j]] != []
    ensures |r| == |ns| && forall j :: 0 <= j < |ns| ==> r[j] == code[ns[j]][0]
  {
    seq(|ns|, j requires 0 <= j < |ns| => code[ns[j]][0])
  }

  /** The system states the equations of operation k of block i. */
  ghost predicate OpStated(y: System<PcodeOp>, G: Graph, code: Code, i: nat, k: nat)
    requires GraphOf(G, code) && i < |code| && k < |code[i]|
  {
    var p := code[i][k];
    && p in y.succ
    && (k + 1 < |code[i]| ==> y.succ[p] == [code[i][k + 1]] && y.exit[p] == {})
    && (k + 1 == |code[i]| ==> y.succ[p] == Firsts(code, G[i]) && y.exit[p] == Asked(|G[i]|, code[i]))
  }

  ghost predicate AllStated(y: System<PcodeOp>, G: Graph, code: Code) {
    GraphOf(G, code) && forall i, k {:trigger OpStated(y, G, code, i, k)} ::
        0 <= i < |code| && 0 <= k < |code[i]| ==> OpStated(y, G, code, i, k)
  }

  // ----- compute_global_live_sets_p

  ghost function OpSets(P: set<PcodeOp>): (st: Sets<PcodeOp>)
    reads P`liveIn, P`liveOut
    ensures st.ins.Keys == st.outs.Keys == P
  {
    Sets(map p | p in P :: p.liveIn, map p | p in P :: p.liveOut)
  }

  lemma OpSetsUpdated(P: set<PcodeOp>, p: PcodeOp, st: Sets<PcodeOp>)
    requires p in P && st.ins.Keys == st.outs.Keys == P
    requires forall q :: q in P && q != p ==> st.ins[q] == q.liveIn && st.outs[q] == q.liveOut
    ensures OpSets(P) == Sets(st.ins[p := p.liveIn], st.outs[p := p.liveOut])
  {
    assert OpSets(P).ins == st.ins[p := p.liveIn];
    assert OpSets(P).outs == st.outs[p := p.liveOut];
  }

  /** The live-out set of a block's last operation: it only ever grows. */
  method ExtendLast(p: PcodeOp, code: Code, succs: seq<nat>, noReturn: bool,
                    ghost P: set<PcodeOp>, ghost ns: seq<PcodeOp>, ghost ins: LiveMap<PcodeOp>)
    requires (forall j :: 0 <= j < |succs| ==> succs[j] < |code| && code[succs[j]] != []) && ns == Firsts(code, succs)
    requires ins == OpSets(P).ins && forall j :: 0 <= j < |ns| ==> ns[j] in P
    modifies p`liveOut
    ensures p.liveOut == old(p.liveOut) + UnionOf(ns, ins, |ns|) + if succs == [] &&
        !noReturn then Upto(CORE_REGS) else {}
  {
    if |succs| == 0 {
      if !noReturn { p.liveOut := p.liveOut + Upto(CORE_REGS); }
    } else {
      var j := 0;
      while j < |succs|
        invariant 0 <= j <= |succs| && p.liveOut == old(p.liveOut) + UnionOf(ns, ins, j)
      {
        var q := code[succs[j]][0];
        assert q == ns[j] && ins[q] == q.liveIn;
        p.liveOut := p.liveOut + q.liveIn;
        j := j + 1;
      }
    }
  }

  /** The live-out set of operation k of block i. */
  method RecomputeOut(G: Graph, code: Code, i: nat, k: nat, ghost P: set<PcodeOp>, ghost y: System<PcodeOp>,
      ghost st: Sets<PcodeOp>)
    requires GraphOf(G, code) && i < |code| && k < |code[i]| && OpStated(y, G, code, i, k)
    requires P == y.succ.Keys && st == OpSets(P) && st.outs[code[i][k]] <= OutOf(y, st.ins, code[i][k])
    modifies P`liveOut
    ensures code[i][k].liveOut == OutOf(y, st.ins, code[i][k])
    ensures forall q :: q in P && q != code[i][k] ==> q.liveOut == old(q.liveOut)
  {
    var p := code[i][k];
    assert p.liveOut == st.outs[p];
    if k + 1 == |code[i]| {
      ExtendLast(p, code, G[i], NoReturn(code[i]), P, y.succ[p], st.ins);
    } else {
      var prev := code[i][k + 1];
      SingleUnion(y, st, p, prev);
      p.liveOut := prev.liveIn;
    }
  }

  /** The body of the loop of compute_global_live_sets_p, for operation k of block i. */
  method UpdateOp(G: Graph, code: Code, i: nat, k: nat, changed: bool, ghost P: set<PcodeOp>, ghost y: System<PcodeOp>,
      ghost st: Sets<PcodeOp>)
    returns (changed': bool)
    requires GraphOf(G, code) && i < |code| && k < |code[i]| && OpStated(y, G, code, i, k)
    requires P == y.succ.Keys && st == OpSets(P) && st.outs[code[i][k]] <= OutOf(y, st.ins, code[i][k])
    requires code[i][k].liveGen == y.gen[code[i][k]] && code[i][k].liveKill == y.kill[code[i][k]]
    modifies P`liveIn, P`liveOut
    ensures OpSets(P) == Updated(y, st, code[i][k]) && changed' == (changed || ChangesAt(y, st, code[i][k]))
  {
    var p := code[i][k];
    var liveOut0, liveIn0 := p.liveOut, p.liveIn;
    assert liveOut0 == st.outs[p] && liveIn0 == st.ins[p];
    RecomputeOut(G, code, i, k, P, y, st);
    p.liveIn := (p.liveOut - p.liveKill) + p.liveGen;
    Changed(P, p, y, st);
    changed' := changed;
    if !changed && (liveOut0 != p.liveOut || liveIn0 != p.liveIn) { changed' := true; }
  }

  lemma Changed(P: set<PcodeOp>, p: PcodeOp, y: System<PcodeOp>, st: Sets<PcodeOp>)
    requires P == y.succ.Keys && p in P && Fits(y, st)
    requires forall q :: q in P && q != p ==> st.ins[q] == q.liveIn && st.outs[q] == q.liveOut
    requires p.liveOut == OutOf(y, st.ins, p) && p.liveIn == InOf(y, p.liveOut, p)
    ensures OpSets(P) == Updated(y, st, p)
    ensures ChangesAt(y, st, p) <==> p.liveOut != st.outs[p] || p.liveIn != st.ins[p]
  {
    OpSetsUpdated(P, p, st);
  }

  lemma SingleUnion(y: System<PcodeOp>, st: Sets<PcodeOp>, p: PcodeOp, q: PcodeOp)
    requires Fits(y, st) && p in y.succ && y.succ[p] == [q] && y.exit[p] == {}
    ensures q in y.succ && OutOf(y, st.ins, p) == st.ins[q]
  {
    var ns := y.succ[p];
    assert ns[0] == q && q in y.succ;
    assert UnionOf(ns, st.ins, 1) == UnionOf(ns, st.ins, 0) + st.ins[q];
  }

  lemma BelowIn<T>(y: System<T>, ns: seq<T>, st: Sets<T>, a: T)
    requires Lists(ns, y) && Fits(y, st) && GrowingTo(y, ns, st, |ns|) && a in y.succ
    ensures st.outs[a] <= OutOf(y, st.ins, a)
  {
    GrowingAll(y, ns, st);
    assert BelowAt(y, st.ins, st.outs, a);
  }

  /** What does not change during a pass over all operations: the equations, the order F
      of the operations, and the sets with which the pass started. */
  datatype RawRun = Run(y: System<PcodeOp>, G: Graph, code: Code, F: seq<PcodeOp>, st: Sets<PcodeOp>) {
    /** Kept shut, so that proofs that only pass a run on do not see what it means. */
    ghost predicate Valid() {
      Shut(|F|)
    }

    ghost predicate Shut(n: nat) {
      if n == 0 then IsRun() else Shut(n - 1)
    }

    ghost predicate IsRun() {
      && AllStated(y, G, code) && Lists(F, y) && F == Flatten(code, |code|)
      && Fits(y, st) && GrowingTo(y, F, st, |F|)
    }

    lemma Open()
      ensures Valid() <==> IsRun()
    {
      Unfold(|F|);
    }

    lemma {:induction false} Unfold(n: nat)
      ensures Shut(n) <==> IsRun()
    {
      if n > 0 { Unfold(n - 1); }
    }
  }

  type Run = r: RawRun | r.Valid() ghost witness EmptyRun()

  ghost function EmptyRun(): (r: RawRun)
    ensures r.Valid()
  {
    var r := Run(System(map[], map[], map[], map[]), [], [], [], Sets(map[], map[]));
    assert Nodes(r.F) == {};
    r.Open();
    r
  }

  ghost function Ops(r: Run): set<PcodeOp> {
    r.y.succ.Keys
  }

  /** When n operations of the order are done, the next ones are those before operation k of block i. */
  ghost predicate Behind(r: Run, i: nat, k: nat, n: nat) {
    i <= |r.code| && n + |Flatten(r.code, i)| + k == |r.F|
  }

  /** What the pass has computed when it has done n operations. */
  ghost predicate Computed(r: Run, n: nat, st: Sets<PcodeOp>, changed: bool) {
    r.Open();
    n <= |r.F| && st == PassOver(r.y, r.F, r.st, n) && changed == PassChanges(r.y, r.F, r.st, n)
  }

  /** The local sets of the operations are those of the equations. */
  ghost predicate FieldsStated(y: System<PcodeOp>)
    reads y.succ.Keys`liveGen, y.succ.Keys`liveKill
  {
    forall p {:trigger FieldStated(p, y)} :: p in y.succ ==> FieldStated(p, y)
  }

  ghost predicate FieldStated(p: PcodeOp, y: System<PcodeOp>)
    requires p in y.succ
    reads p`liveGen, p`liveKill
  {
    p.liveGen == y.gen[p] && p.liveKill == y.kill[p]
  }

  /** The operation that a turn is about. */
  lemma TurnAt(r: Run, i: nat, k: nat, k1: nat, n: nat) returns (at: nat)
    requires i < |r.code| && k < |r.code[i]| && k1 == k + 1 && Behind(r, i, k1, n)
    ensures at + n + 1 == |r.F| && r.F[at] == r.code[i][k]
    ensures GraphOf(r.G, r.code) && OpStated(r.y, r.G, r.code, i, k)
  {
    r.Open();
    at := |Flatten(r.code, i)| + k;
    FlattenAt(r.code, |r.code|, i, k);
    assert OpStated(r.y, r.G, r.code, i, k);
  }

  lemma NextBehind(r: Run, i: nat, k: nat, k1: nat, n: nat, n1: nat)
    requires k1 == k + 1 && n1 == n + 1 && Behind(r, i, k1, n)
    ensures Behind(r, i, k, n1)
  {
  }

  /** The pass has come to operation k of block i, n operations in all. */
  ghost predicate At(r: Run, i: nat, k: nat, n: nat, changed: bool)
    reads Ops(r)`liveIn, Ops(r)`liveOut
  {
    Behind(r, i, k, n) && Computed(r, n, OpSets(Ops(r)), changed)
  }

  /** One turn: operation k of block i, to which at operations come before. */
  method TurnOp(G: Graph, code: Code, i: nat, k: nat, ghost n: nat, ghost n1: nat, ghost at: nat, changed: bool,
      ghost r: Run) returns (changed': bool)
    requires GraphOf(G, code) && i < |code| && k < |code[i]| && OpStated(r.y, G, code, i, k) &&
        FieldStated(code[i][k], r.y)
    requires n1 == n + 1 && n1 + at == |r.F| && r.F[at] == code[i][k] && Computed(r, n, OpSets(Ops(r)), changed)
    modifies Ops(r)`liveIn, Ops(r)`liveOut
    ensures Computed(r, n1, OpSets(Ops(r)), changed')
  {
    ghost var p := code[i][k];
    r.Open();
    PassNextAt(r.y, r.F, r.st, n, n1, at, p);
    PassGains(r.y, r.F, r.st, n);
    BelowIn(r.y, r.F, PassOver(r.y, r.F, r.st, n), p);
    changed' := UpdateOp(G, code, i, k, changed, Ops(r), r.y, OpSets(Ops(r)));
  }

  method Turn(G: Graph, code: Code, i: nat, k: nat, ghost k1: nat, changed: bool, ghost n: nat, ghost r: Run)
      returns (changed': bool, ghost n1: nat)
    requires r.G == G && r.code == code && i < |code| && k < |code[i]| && k1 == k + 1
    requires code[i][k] in r.y.succ && FieldStated(code[i][k], r.y)
    requires At(r, i, k1, n, changed)
    modifies Ops(r)`liveIn, Ops(r)`liveOut
    ensures At(r, i, k, n1, changed')
  {
    ghost var at := TurnAt(r, i, k, k1, n);
    n1 := n + 1;
    NextBehind(r, i, k, k1, n, n1);
    changed' := TurnOp(G, code, i, k, n, n1, at, changed, r);
  }

  lemma StatedAt(r: Run, i: nat, k: nat)
    requires i < |r.code| && k < |r.code[i]|
    ensures r.code[i][k] in r.y.succ
  {
    r.Open();
    assert OpStated(r.y, r.G, r.code, i, k);
  }

  method StatedTurn(G: Graph, code: Code, i: nat, k: nat, ghost k1: nat, changed: bool, ghost n: nat,
      ghost r: Run) returns (changed': bool, ghost n1: nat)
    requires r.G == G && r.code == code && FieldsStated(r.y) && i < |code| && k < |code[i]| && k1 == k + 1
    requires At(r, i, k1, n, changed)
    modifies Ops(r)`liveIn, Ops(r)`liveOut
    ensures At(r, i, k, n1, changed')
  {
    StatedAt(r, i, k);
    assert FieldStated(code[i][k], r.y);
    changed', n1 := Turn(G, code, i, k, k1, changed, n, r);
  }

  /** The operations of block i, from the last one up; n operations are done before, n' after. */
  method BlockPass(G: Graph, code: Code, i: nat, ghost last: nat, changed0: bool, ghost n: nat, ghost r: Run)
    returns (changed: bool, ghost n': nat, ghost z: nat)
    requires r.G == G && r.code == code && FieldsStated(r.y) && i < |code| && last == |code[i]|
    requires At(r, i, last, n, changed0)
    modifies Ops(r)`liveIn, Ops(r)`liveOut
    ensures z == 0 && At(r, i, z, n', changed)
  {
    changed := changed0;
    var k := |code[i]|;
    n', z := n, last;
    while k > 0
      invariant 0 <= k <= |code[i]| && z == k
      invariant At(r, i, z, n', changed)
    {
      ghost var k1 := z;
      k := k - 1;
      z := k;
      changed, n' := StatedTurn(G, code, i, k, k1, changed, n', r);
    }
  }

  /** Everything behind block i1 is everything behind the last operation of the block before. */
  lemma NextBlock(r: Run, i1: nat, z: nat, i: nat, last: nat, n: nat)
    requires i1 == i + 1 <= |r.code| && z == 0 && last == |r.code[i]| && Behind(r, i1, z, n)
    ensures Behind(r, i, last, n)
  {
  }

  lemma Begins(r: Run, e: nat, z: nat, n: nat, changed: bool)
    requires e == |r.code| && z == 0 && n == 0 && !changed && r.st == OpSets(Ops(r))
    ensures Behind(r, e, z, n) && Computed(r, n, OpSets(Ops(r)), changed)
  {
    r.Open();
  }

  /** One pass of compute_global_live_sets_p, from the last block to the first. */
  method OnePassOps(G: Graph, code: Code, ghost r: Run) returns (changed: bool, ghost n: nat)
    requires r.G == G && r.code == code && FieldsStated(r.y) && r.st == OpSets(Ops(r))
    modifies Ops(r)`liveIn, Ops(r)`liveOut
    ensures n == |r.F| && Computed(r, n, OpSets(Ops(r)), changed)
  {
    changed := false;
    var i := |code|;
    ghost var e, z := |code|, 0;
    n := 0;
    Begins(r, e, z, n, changed);
    while i > 0
      invariant 0 <= i <= |code| && e == i && z == 0
      invariant Behind(r, e, z, n) && Computed(r, n, OpSets(Ops(r)), changed)
    {
      ghost var i1 := e;
      i := i - 1;
      e := i;
      ghost var last := |code[i]|;
      NextBlock(r, i1, z, e, last, n);
      assert At(r, e, last, n, changed);
      changed, n, z := BlockPass(G, code, i, last, changed, n, r);
      assert Behind(r, e, z, n) && Computed(r, n, OpSets(Ops(r)), changed);
    }
  }

  /** How much the sets can still grow. */
  ghost function Left(r: Run): nat {
    r.Open();
    WeightMost(r.y, r.F, r.st);
    2 * REGS * |r.F| - WeightOf(r.F, r.y, r.st)
  }

  /** A pass that has gone through gains, or it has found what is live by paths. */
  lemma PassEnds(r: Run, n: nat, changed: bool) returns (r': Run)
    requires n == |r.F| && Computed(r, n, OpSets(Ops(r)), changed)
    ensures r'.y == r.y && r'.G == r.G && r'.code == r.code && r'.st == OpSets(Ops(r)) &&
        (!changed ==> IsLive(r.y, r'.st))
    ensures if changed then Left(r') < Left(r) else Left(r') <= Left(r)
  {
    r.Open();
    AfterPass(r.y, r.F, r.st, OpSets(Ops(r)));
    var raw := Run(r.y, r.G, r.code, r.F, OpSets(Ops(r)));
    raw.Open();
    r' := raw;
  }

  /** One pass, and the run that the next one starts from. */
  method OneRun(G: Graph, code: Code, ghost r: Run) returns (changed: bool, ghost r': Run)
    requires r.G == G && r.code == code && FieldsStated(r.y) && r.st == OpSets(Ops(r))
    modifies Ops(r)`liveIn, Ops(r)`liveOut
    ensures r'.y == r.y && r'.G == G && r'.code == code && r'.st == OpSets(Ops(r))
    ensures !changed ==> IsLive(r.y, r'.st)
    ensures old(FieldsStated(r.y)) ==> FieldsStated(r.y)
    ensures if changed then Left(r') < Left(r) else Left(r') <= Left(r)
  {
    ghost var n;
    changed, n := OnePassOps(G, code, r);
    r' := PassEnds(r, n, changed);
  }

  /** compute_global_live_sets_p: from empty sets, exactly what is live by paths. */
  method ComputeGlobalLiveSetsP(G: Graph, code: Code, ghost r0: Run)
    requires r0.G == G && r0.code == code && FieldsStated(r0.y) && r0.st == OpSets(Ops(r0))
    modifies Ops(r0)`liveIn, Ops(r0)`liveOut
    ensures Fits(r0.y, OpSets(Ops(r0))) && IsLive(r0.y, OpSets(Ops(r0)))
  {
    ghost var r: Run := r0;
    var changed := true;
    while changed
      invariant r.y == r0.y && r.G == G && r.code == code && r.st == OpSets(Ops(r0)) && FieldsStated(r.y)
      invariant !changed ==> IsLive(r0.y, r.st)
      decreases Left(r), if changed then 1 else 0
    {
      changed, r := OneRun(G, code, r);
    }
  }

  /** A run may start with empty sets. */
  lemma StartsEmpty(y: System<PcodeOp>, G: Graph, code: Code, F: seq<PcodeOp>)
    requires AllStated(y, G, code) && Lists(F, y) && F == Flatten(code, |code|)
    requires forall p :: p in y.succ ==> p.liveIn == {} && p.liveOut == {}
    ensures Run(y, G, code, F, OpSets(y.succ.Keys)).Valid()
  {
    var st := OpSets(y.succ.Keys);
    assert forall p :: p in y.succ ==> st.ins[p] == {} && st.outs[p] == {};
    StartGrowing(y, F, st);
    Run(y, G, code, F, st).Open();
  }
}
