/** Functions in SSA form, the paths through their flow graph, and the values that travel along
    paths through operations that pass one of their inputs on unchanged. */
module ValueFlow {
  import opened Pcode
  import opened Graphs

  /** The operations of a function; def and kind are the fields of its varnodes, block says where
      an operation stands.  G and P list the successors and predecessors of blocks.  rank orders
      the operations other than phis: each comes after what it reads. */
  datatype RawSsa = Ssa(ops: set<PcodeOp>, def: map<Varnode, PcodeOp>, kind: map<Varnode, ValueType>,
                        rank: map<PcodeOp, nat>, block: map<PcodeOp, nat>, G: Graph, P: Graph) {
    ghost predicate Valid() {
      && def.Keys <= kind.Keys && rank.Keys == block.Keys == ops
      && (forall vn {:trigger def[vn]} :: vn in def ==> def[vn] in ops)
      && WellFormed(G) && Transposed(G, P)
      && forall p {:trigger OpValid(p)} :: p in ops ==> OpValid(p)
    }

    ghost predicate OpValid(p: PcodeOp)
      requires rank.Keys == block.Keys == ops && def.Keys <= kind.Keys && |P| == |G| && p in ops
      requires forall vn {:trigger def[vn]} :: vn in def ==> def[vn] in ops
    {
      && block[p] < |G|
      && (forall k {:trigger p.inrefs[k]} :: 0 <= k < |p.inrefs| ==> p.inrefs[k] in kind)
      && (p.opcode == MultiEqual ==> PhiValid(p))
      && (p.opcode == Copy || p.opcode == Subpiece ==> p.inrefs != [])
      && (p.opcode == Store ==> |p.inrefs| == 3)
      && (p.opcode != MultiEqual ==> forall k {:trigger p.inrefs[k]} ::
          0 <= k < |p.inrefs| && p.inrefs[k] in def ==> Earlier(def[p.inrefs[k]], p))
    }

    /** A phi has one input for each edge into its block. */
    ghost predicate PhiValid(p: PcodeOp)
      requires rank.Keys == block.Keys == ops && def.Keys <= kind.Keys && |P| == |G| && p in ops && block[p] < |G|
      requires forall vn {:trigger def[vn]} :: vn in def ==> def[vn] in ops
    {
      && p.output != null && p.output in def && def[p.output] == p
      && block[p] != 0 && |p.inrefs| == |P[block[p]]|
    }

    /** What another operation reads comes before it. */
    ghost predicate Earlier(d: PcodeOp, p: PcodeOp)
      requires rank.Keys == ops && d in ops && p in ops
    {
      d.opcode == MultiEqual || rank[d] < rank[p]
    }

    /** Definitions dominate their uses, and the entry reaches every block. */
    ghost predicate Dominated()
      requires Valid()
    {
      && (forall b {:trigger Reaches(G, 0, b)} :: 0 <= b < |G| ==> Reaches(G, 0, b))
      && forall p {:trigger OpDominated(p)} :: p in ops ==> OpDominated(p)
    }

    /** What a phi reads is defined where the edge of that input begins, what another operation
        reads is defined in its block. */
    ghost predicate OpDominated(p: PcodeOp)
      requires Valid() && p in ops
    {
      assert OpValid(p);
      if p.opcode == MultiEqual then
        forall k {:trigger p.inrefs[k]} :: 0 <= k < |p.inrefs| && p.inrefs[k] in def ==>
          Dominates(G, block[def[p.inrefs[k]]], P[block[p]][k])
      else
        forall k {:trigger p.inrefs[k]} :: 0 <= k < |p.inrefs| && p.inrefs[k] in def ==>
          Dominates(G, block[def[p.inrefs[k]]], block[p])
    }
  }

  /** Operations in an order in which values can be followed back. */
  type Ssa = y: RawSsa | y.Valid() ghost witness Ssa({}, map[], map[], map[], map[], [], [])

  /** SSA form proper: every block can be reached, and definitions dominate their uses. */
  type FlowSsa = y: Ssa | y.Dominated() ghost witness Ssa({}, map[], map[], map[], map[], [], [])

  /** The fields hold what y says. */
  ghost predicate Spelled(y: Ssa)
    reads y.kind.Keys`kind, y.kind.Keys`def
  {
    forall vn {:trigger SpelledAt(y, vn)} :: vn in y.kind ==> SpelledAt(y, vn)
  }

  ghost predicate SpelledAt(y: Ssa, vn: Varnode)
    requires vn in y.kind
    reads vn`kind, vn`def
  {
    vn.kind == y.kind[vn] && if vn in y.def then vn.def == y.def[vn] else vn.def == null
  }

  // ----- paths and values

  /** A block is visited through one of the edges into it. */
  datatype Visit = Visit(block: nat, slot: nat)

  /** A path from the entry on, which takes one edge after the other. */
  ghost predicate IsTrace(y: Ssa, T: seq<Visit>) {
    && |T| > 0 && T[0].block == 0
    && forall i {:trigger T[i]} :: 0 <= i < |T| ==> T[i].block < |y.G| && (i > 0 ==> Enters(y, T[i - 1], T[i]))
  }

  ghost predicate Enters(y: Ssa, a: Visit, b: Visit) {
    b.block < |y.P| && b.slot < |y.P[b.block]| && y.P[b.block][b.slot] == a.block
  }

  lemma TracePrefix(y: Ssa, T: seq<Visit>, n: nat)
    requires IsTrace(y, T) && 0 < n <= |T|
    ensures IsTrace(y, T[..n])
  {
    var R := T[..n];
    forall i | 0 <= i < |R| ensures R[i].block < |y.G| && (i > 0 ==> Enters(y, R[i - 1], R[i])) { assert T[i] == R[i]; }
  }

  function At(T: seq<Visit>): nat
    requires |T| > 0
  {
    T[|T| - 1].block
  }

  /** How much of the path lies up to the last visit of block b. */
  function UpTo(T: seq<Visit>, b: nat): (n: nat)
    ensures n <= |T| && (n > 0 ==> T[n - 1].block == b) && forall i :: n <= i < |T| ==> T[i].block != b
  {
    if T == [] then 0 else if T[|T| - 1].block == b then |T| else UpTo(T[..|T| - 1], b)
  }

  /** What a path leaves open: the results of operations that do not pass on an input, the values
      of varnodes that nothing defines, and where the stack pointer and the program counter are. */
  datatype World = World(result: (nat, PcodeOp) -> int, input: Varnode -> int, sp: int, pc: int)

  function Meaning(t: ValueType, w: World): int {
    match t.height
    case SpConstant => w.sp + t.v
    case PcConstant => w.pc + t.v
    case _ => t.v
  }

  /** The operations that pass one of their sources on unchanged. */
  predicate Carries(p: PcodeOp) {
    p.opcode == Copy || p.opcode == MultiEqual || p.opcode == Store || (p.opcode == Load && |p.inrefs| == 3)
  }

  function Sources(p: PcodeOp): seq<Varnode> {
    match p.opcode
    case Copy => if p.inrefs == [] then [] else [p.inrefs[0]]
    case MultiEqual => p.inrefs
    case Load | Store => if |p.inrefs| == 3 then [p.inrefs[2]] else []
    case _ => []
  }

  lemma SourcesKnown(y: Ssa, p: PcodeOp)
    requires p in y.ops
    ensures forall k :: 0 <= k < |Sources(p)| ==> Sources(p)[k] in y.kind
    ensures forall k :: 0 <= k < |Sources(p)| && Sources(p)[k] in y.def ==> y.def[Sources(p)[k]] in y.ops
  {
    assert p in y.rank && y.OpValid(p);
  }

  /** A path to the block of operation p. */
  ghost predicate PathTo(y: Ssa, T: seq<Visit>, p: PcodeOp) {
    IsTrace(y, T) && p in y.ops && At(T) == y.block[p]
  }

  /** What operation p computes at the end of a path to its block. */
  ghost function Value(y: Ssa, w: World, T: seq<Visit>, p: PcodeOp): int
    requires PathTo(y, T, p)
    decreases |T|, 0, if p.opcode == MultiEqual then 0 else 3 * y.rank[p] + 3
  {
    assert p in y.rank && y.OpValid(p);
    if !Carries(p) then w.result(|T|, p)
    else if p.opcode == MultiEqual then
      if |T| == 1 then w.result(|T|, p)
      else
        assert Enters(y, T[|T| - 2], T[|T| - 1]) by { assert T[|T| - 1].block < |y.G|; }
        TracePrefix(y, T, |T| - 1);
        Reading(y, w, T[..|T| - 1], p.inrefs[T[|T| - 1].slot], p)
    else Reading(y, w, T, Sources(p)[0], p)
  }

  /** What varnode vn holds at the end of a path, when p is about to read it. */
  ghost function Reading(y: Ssa, w: World, T: seq<Visit>, vn: Varnode, p: PcodeOp): int
    requires IsTrace(y, T) && vn in y.kind && p in y.ops
    requires p.opcode != MultiEqual && vn in y.def ==> y.Earlier(y.def[vn], p)
    decreases |T|, if p.opcode == MultiEqual then 1 else 0, if p.opcode == MultiEqual then 1 else 3 * y.rank[p] + 2
  {
    if y.kind[vn].IsConstant() then y.kind[vn].v
    else if vn !in y.def then (if y.kind[vn].IsGenConstant() then Meaning(y.kind[vn], w) else w.input(vn))
    else DefinedValue(y, w, T, y.def[vn], p)
  }

  /** What operation d computed last on a path. */
  ghost function DefinedValue(y: Ssa, w: World, T: seq<Visit>, d: PcodeOp, p: PcodeOp): int
    requires IsTrace(y, T) && d in y.ops && p in y.ops &&
        (p.opcode != MultiEqual ==> d.opcode == MultiEqual || y.rank[d] < y.rank[p])
    decreases |T|, if p.opcode == MultiEqual then 1 else 0, if p.opcode == MultiEqual then 0 else 3 * y.rank[p] + 1
  {
    var n := UpTo(T, y.block[d]);
    if n == 0 then 0
    else
      TracePrefix(y, T, n);
      Value(y, w, T[..n], d)
  }

  // ----- what can come out of a set of operations

  /** Whatever p passes on is a constant among X, or comes from an operation of S. */
  ghost predicate Passes(y: Ssa, S: set<PcodeOp>, X: set<int>, p: PcodeOp) {
    p in y.ops && Carries(p) && forall k :: 0 <= k < |Sources(p)| ==> ComesFrom(y, S, X, Sources(p)[k])
  }

  ghost predicate ComesFrom(y: Ssa, S: set<PcodeOp>, X: set<int>, vn: Varnode) {
    vn in y.kind && if y.kind[vn].IsConstant() then y.kind[vn].v in X else vn in y.def && y.def[vn] in S
  }

  /** A path to a block has visited all its dominators. */
  lemma {:induction false} DominatorVisited(y: Ssa, T: seq<Visit>, b: nat)
    requires IsTrace(y, T) && Dominates(y.G, b, At(T))
    ensures UpTo(T, b) > 0
  {
    var p := Blocks(T);
    assert PathBetween(y.G, 0, p, At(T)) by {
      forall i | 0 <= i < |p| - 1 ensures Edge(y.G, p[i], p[i + 1]) {
        assert Enters(y, T[i], T[i + 1]) by { assert T[i + 1].block < |y.G|; }
        assert T[i].block in y.P[T[i + 1].block];
      }
    }
    var i :| 0 <= i < |p| && p[i] == b;
    assert T[i].block == b;
  }

  function Blocks(T: seq<Visit>): (p: seq<nat>)
    ensures |p| == |T| && forall i :: 0 <= i < |T| ==> p[i] == T[i].block
  {
    seq(|T|, i requires 0 <= i < |T| => T[i].block)
  }

  /** When all operations of S only pass on each other's values and constants among X,
      each of them computes one of X, on every path. */
  lemma {:induction false} FlowStays(y: FlowSsa, w: World, S: set<PcodeOp>, X: set<int>, T: seq<Visit>, p: PcodeOp)
    requires PathTo(y, T, p) && p in S
    requires forall q :: q in S ==> Passes(y, S, X, q)
    ensures Value(y, w, T, p) in X
    decreases |T|, 0, if p.opcode == MultiEqual then 0 else 2 * y.rank[p] + 2
  {
    assert p in y.rank && y.OpValid(p) && y.OpDominated(p) && Passes(y, S, X, p);
    if p.opcode == MultiEqual {
      EdgeIn(y, T, p);
      TracePrefix(y, T, |T| - 1);
      assert ComesFrom(y, S, X, Sources(p)[T[|T| - 1].slot]);
      ReadingStays(y, w, S, X, T[..|T| - 1], p.inrefs[T[|T| - 1].slot], p);
    } else {
      ReadingStays(y, w, S, X, T, Sources(p)[0], p);
    }
  }

  /** A path to a phi ends with an edge into its block. */
  lemma EdgeIn(y: Ssa, T: seq<Visit>, p: PcodeOp)
    requires PathTo(y, T, p) && p.opcode == MultiEqual
    ensures |T| > 1 && T[|T| - 1].slot < |p.inrefs| == |y.P[At(T)]| && At(T[..|T| - 1]) == y.P[At(T)][T[|T| - 1].slot]
  {
    assert p in y.rank && y.OpValid(p);
    assert T[|T| - 1].block < |y.G|;
    if |T| > 1 { assert Enters(y, T[|T| - 2], T[|T| - 1]); }
  }

  /** Where p reads vn, at the end of a path to where its value is looked up. */
  ghost predicate ReadAt(y: Ssa, T: seq<Visit>, vn: Varnode, p: PcodeOp) {
    && IsTrace(y, T) && vn in y.kind && p in y.ops
    && (vn in y.def && p.opcode != MultiEqual ==> y.Earlier(y.def[vn], p))
    && (vn in y.def ==> Dominates(y.G, y.block[y.def[vn]], At(T)))
  }

  lemma {:induction false} ReadingStays(y: FlowSsa, w: World, S: set<PcodeOp>, X: set<int>, T: seq<Visit>, vn: Varnode,
      p: PcodeOp)
    requires ReadAt(y, T, vn, p) && ComesFrom(y, S, X, vn)
    requires forall q :: q in S ==> Passes(y, S, X, q)
    ensures Reading(y, w, T, vn, p) in X
    decreases |T|, if p.opcode == MultiEqual then 1 else 0, if p.opcode == MultiEqual then 0 else 2 * y.rank[p] + 1
  {
    if !y.kind[vn].IsConstant() {
      var d := y.def[vn];
      DominatorVisited(y, T, y.block[d]);
      var n := UpTo(T, y.block[d]);
      TracePrefix(y, T, n);
      FlowStays(y, w, S, X, T[..n], d);
    }
  }

  // ----- how paths are made

  /** Nodes of a path behind the last visit of b. */
  lemma {:induction false} AfterLast(G: Graph, u: nat, p: seq<nat>, v: nat, b: nat) returns (q: seq<nat>)
    requires PathBetween(G, u, p, v) && b in p
    ensures PathBetween(G, b, q, v) && b !in q[1..]
    decreases |p|
  {
    if b in p[1..] {
      forall i | 0 <= i < |p[1..]| - 1 ensures Edge(G, p[1..][i],
          p[1..][i + 1]) { assert Edge(G, p[i + 1], p[i + 1 + 1]); }
      q := AfterLast(G, p[1], p[1..], v, b);
    } else {
      q := p;
    }
  }

  lemma {:induction false} UpToSame(T: seq<Visit>, R: seq<Visit>, b: nat)
    requires |T| <= |R| && R[..|T|] == T && forall i :: |T| <= i < |R| ==> R[i].block != b
    ensures UpTo(R, b) == UpTo(T, b)
    decreases |R|
  {
    if |R| > |T| {
      assert R[|R| - 1].block != b;
      UpToSame(T, R[..|R| - 1], b);
    } else {
      assert R == T;
    }
  }

  /** The path goes on along q, which does not come back to b. */
  lemma {:induction false} GoAlong(y: Ssa, T: seq<Visit>, q: seq<nat>, t: nat, b: nat) returns (R: seq<Visit>)
    requires IsTrace(y, T) && PathBetween(y.G, At(T), q, t) && b !in q[1..]
    ensures IsTrace(y, R) && At(R) == t && |T| <= |R| && R[..|T|] == T && forall i :: |T| <= i < |R| ==> R[i].block != b
    decreases |q|
  {
    if |q| == 1 {
      R := T;
    } else {
      assert Edge(y.G, q[0], q[0 + 1]);
      assert q[0] in y.P[q[1]];
      var k :| 0 <= k < |y.P[q[1]]| && y.P[q[1]][k] == q[0];
      var next := Step(y, T, Visit(q[1], k));
      forall i | 0 <= i < |q[1..]| - 1 ensures Edge(y.G, q[1..][i],
          q[1..][i + 1]) { assert Edge(y.G, q[i + 1], q[i + 1 + 1]); }
      assert q[1] in q[1..] && q[1..][1..] == q[2..];
      R := GoAlong(y, next, q[1..], t, b);
      assert R[..|T|] == R[..|next|][..|T|];
      assert R[|T|] == R[..|next|][|T|];
    }
  }

  lemma Step(y: Ssa, T: seq<Visit>, v: Visit) returns (R: seq<Visit>)
    requires IsTrace(y, T) && v.block < |y.G| && Enters(y, T[|T| - 1], v)
    ensures R == T + [v] && IsTrace(y, R) && At(R) == v.block
  {
    R := T + [v];
    forall i | 0 <= i < |R| ensures R[i].block < |y.G| && (i > 0 ==> Enters(y, R[i - 1], R[i])) {
      if i < |T| { assert T[i] == R[i]; }
    }
  }

  /** From a block to any block that it dominates, without coming back. */
  lemma GoOn(y: FlowSsa, T: seq<Visit>, t: nat) returns (R: seq<Visit>)
    requires IsTrace(y, T) && t < |y.G| && Dominates(y.G, At(T), t)
    ensures IsTrace(y, R) && At(R) == t && UpTo(R, At(T)) == |T| && R[..|T|] == T
  {
    assert Reaches(y.G, 0, t);
    var p :| PathBetween(y.G, 0, p, t);
    var q := AfterLast(y.G, 0, p, t, At(T));
    R := GoAlong(y, T, q, t, At(T));
    UpToSame(T, R, At(T));
  }

  /** A path from the entry to a block. */
  lemma Start(y: FlowSsa, t: nat) returns (R: seq<Visit>)
    requires t < |y.G|
    ensures IsTrace(y, R) && At(R) == t
  {
    var T := [Visit(0, 0)];
    assert Dominates(y.G, 0, t) by {
      forall p | PathBetween(y.G, 0, p, t) ensures 0 in p { assert p[0] == 0; }
    }
    R := GoOn(y, T, t);
  }

  // ----- how values arrive

  /** The varnode is no plain constant, and an operation defines it. */
  ghost predicate Fed(y: Ssa, vn: Varnode) {
    vn in y.kind && !y.kind[vn].IsConstant() && vn in y.def
  }

  /** From root, back along the numbered sources, to p. */
  ghost predicate LinkedVia(y: Ssa, root: PcodeOp, slots: seq<nat>, p: PcodeOp)
    decreases |slots|
  {
    if slots == [] then root == p
    else IsFed(y, root, slots[0]) && LinkedVia(y, Feeder(y, root, slots[0]), slots[1..], p)
  }

  /** The k-th source of p is fed by another operation. */
  ghost predicate IsFed(y: Ssa, p: PcodeOp, k: nat) {
    p in y.ops && Carries(p) && k < |Sources(p)| && Fed(y, Sources(p)[k])
  }

  ghost function Feeder(y: Ssa, p: PcodeOp, k: nat): PcodeOp
    requires IsFed(y, p, k)
  {
    y.def[Sources(p)[k]]
  }

  ghost predicate Linked(y: Ssa, root: PcodeOp, p: PcodeOp) {
    exists slots :: LinkedVia(y, root, slots, p)
  }

  lemma LinkedSelf(y: Ssa, p: PcodeOp)
    ensures Linked(y, p, p)
  {
    assert LinkedVia(y, p, [], p);
  }

  lemma JoinedTail(slots: seq<nat>, more: seq<nat>, all: seq<nat>)
    requires slots != [] && all == slots + more
    ensures all != [] && all[0] == slots[0] && all[1..] == slots[1..] + more
  {
  }

  lemma {:induction false} ViaTransitive(y: Ssa, root: PcodeOp, slots: seq<nat>, p: PcodeOp, more: seq<nat>,
      q: PcodeOp, all: seq<nat>)
    requires LinkedVia(y, root, slots, p) && LinkedVia(y, p, more, q) && all == slots + more
    ensures LinkedVia(y, root, all, q)
    decreases |slots|
  {
    if slots == [] {
      assert all == more;
    } else {
      JoinedTail(slots, more, all);
      ViaTransitive(y, Feeder(y, root, all[0]), slots[1..], p, more, q, all[1..]);
    }
  }

  lemma LinkedTransitive(y: Ssa, root: PcodeOp, p: PcodeOp, q: PcodeOp)
    requires Linked(y, root, p) && Linked(y, p, q)
    ensures Linked(y, root, q)
  {
    var slots :| LinkedVia(y, root, slots, p);
    var more :| LinkedVia(y, p, more, q);
    ViaTransitive(y, root, slots, p, more, q, slots + more);
  }

  /** p is fed by what defines its k-th source. */
  lemma LinkedSource(y: Ssa, p: PcodeOp, k: nat)
    requires IsFed(y, p, k)
    ensures Linked(y, p, y.def[Sources(p)[k]])
  {
    assert [k][1..] == [];
    assert LinkedVia(y, p, [k], Feeder(y, p, k));
  }

  /** The block at whose end p reads its k-th source. */
  ghost function ReadBlock(y: Ssa, p: PcodeOp, k: nat): (b: nat)
    requires p in y.ops && Carries(p) && k < |Sources(p)|
    ensures b < |y.G|
  {
    assert p in y.rank && y.OpValid(p);
    if p.opcode == MultiEqual then
      assert y.P[y.block[p]][k] in y.P[y.block[p]];
      assert Edge(y.G, y.P[y.block[p]][k], y.block[p]);
      y.P[y.block[p]][k]
    else y.block[p]
  }

  /** A path to where p reads source k goes on to p itself, which computes what it reads. */
  lemma ReadNext(y: FlowSsa, w: World, T: seq<Visit>, p: PcodeOp, k: nat) returns (R: seq<Visit>)
    requires p in y.ops && Carries(p) && k < |Sources(p)| && IsTrace(y, T) && At(T) == ReadBlock(y, p, k)
    ensures IsTrace(y, R) && At(R) == y.block[p] && ReadAt(y, T, Sources(p)[k], p) &&
        Value(y, w, R, p) == Reading(y, w, T, Sources(p)[k], p)
  {
    assert p in y.rank && y.OpValid(p);
    SourcesKnown(y, p);
    if p.opcode == MultiEqual {
      assert Sources(p)[k] == p.inrefs[k];
      R := Step(y, T, Visit(y.block[p], k));
      assert R[..|R| - 1] == T;
    } else {
      assert exists j :: 0 <= j < |p.inrefs| && p.inrefs[j] == Sources(p)[k];
      R := T;
    }
    if Sources(p)[k] in y.def { ReadDominated(y, p, k); }
  }

  /** A value travels back along the sources to the root. */
  lemma {:induction false} Travel(y: FlowSsa, w: World, root: PcodeOp, slots: seq<nat>, p: PcodeOp, T: seq<Visit>)
      returns (R: seq<Visit>)
    requires LinkedVia(y, root, slots, p) && PathTo(y, T, p)
    ensures PathTo(y, R, root) && Value(y, w, R, root) == Value(y, w, T, p)
    decreases |slots|
  {
    if slots == [] {
      R := T;
    } else {
      var k := slots[0];
      var vn := Sources(root)[k];
      var d := y.def[vn];
      SourcesKnown(y, root);
      R := Travel(y, w, d, slots[1..], p, T);
      var T1 := R;
      ReadDominated(y, root, k);
      R := GoOn(y, T1, ReadBlock(y, root, k));
      assert Reading(y, w, R, vn, root) == Value(y, w, T1, d);
      R := ReadNext(y, w, R, root, k);
    }
  }

  lemma ReadDominated(y: FlowSsa, p: PcodeOp, k: nat)
    requires p in y.ops && Carries(p) && k < |Sources(p)| && Sources(p)[k] in y.def
    ensures y.def[Sources(p)[k]] in y.ops && Dominates(y.G, y.block[y.def[Sources(p)[k]]], ReadBlock(y, p, k))
    ensures p.opcode != MultiEqual ==> y.Earlier(y.def[Sources(p)[k]], p)
  {
    assert p in y.rank && y.OpValid(p);
    SourcesKnown(y, p);
    assert y.OpDominated(p);
    if p.opcode != MultiEqual {
      var j :| 0 <= j < |p.inrefs| && p.inrefs[j] == Sources(p)[k];
      assert y.Earlier(y.def[p.inrefs[j]], p);
    }
  }

  /** What can be read by an operation on some path, the root can compute on some path. */
  lemma Attained(y: FlowSsa, w: World, root: PcodeOp, p: PcodeOp, k: nat, T: seq<Visit>) returns (R: seq<Visit>)
    requires Linked(y, root, p) && p in y.ops && Carries(p) && k < |Sources(p)| && IsTrace(y, T) &&
        At(T) == ReadBlock(y, p, k)
    ensures ReadAt(y, T, Sources(p)[k], p)
    ensures PathTo(y, R, root) && Value(y, w, R, root) == Reading(y, w, T, Sources(p)[k], p)
  {
    var slots :| LinkedVia(y, root, slots, p);
    R := ReadNext(y, w, T, p, k);
    R := Travel(y, w, root, slots, p, R);
  }
}
