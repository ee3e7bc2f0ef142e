/** Expanding a variable with known constants into a chain of comparisons, one copy for each. */
module CompareChain {
  import opened Sequences
  import opened Pcode
  import opened ByteStrings
  import VF = ValueFlow
  import CD = ConstDefs

  // ----- the operations that are built, and what they do

  datatype Loc = Reg(r: nat) | Unique(u: nat)

  datatype Arg = Place(l: Loc) | Lit(v: int)

  /** size counts the bytes of the output. */
  datatype Op =
    | Use(a: Arg)
    | IntSub(out: Loc, a: Arg, b: Arg, size: nat)
    | IntEqual(out: Loc, a: Arg, b: Arg)
    | CopyOp(out: Loc, a: Arg, size: nat)
    | CBranch(cond: Arg)

  type Store = Loc -> int

  function Eval(a: Arg, s: Store): int {
    match a
    case Place(l) => s(l)
    case Lit(v) => v
  }

  function Set(s: Store, l: Loc, x: int): Store {
    k => if k == l then x else s(k)
  }

  function Do(op: Op, s: Store): Store {
    match op
    case IntSub(out, a, b, size) => Set(s, out, (Eval(a, s) - Eval(b, s)) % Pow256(size))
    case IntEqual(out, a, b) => Set(s, out, if Eval(a, s) == Eval(b, s) then 1 else 0)
    case CopyOp(out, a, size) => Set(s, out, Eval(a, s) % Pow256(size))
    case _ => s
  }

  function DoAll(ops: seq<Op>, s: Store): Store
    decreases |ops|
  {
    if ops == [] then s else DoAll(ops[1..], Do(ops[0], s))
  }

  datatype Out = Out(to: nat, isTrue: bool)

  /** A flow graph: the operations and the out-edges of each block. */
  datatype Graph = Graph(ops: seq<seq<Op>>, outs: seq<seq<Out>>, uniq: nat) {
    predicate Valid() { |ops| == |outs| }
  }

  function EdgeFor(es: seq<Out>, taken: bool): Option<nat> {
    if es == [] then None else if es[0].isTrue == taken then Some(es[0].to) else EdgeFor(es[1..], taken)
  }

  /** Where control goes after a block, when the store is s. */
  function NextBlock(g: Graph, b: nat, s: Store): Option<nat>
    requires g.Valid() && b < |g.ops|
  {
    var ops := g.ops[b];
    if ops != [] && ops[|ops| - 1].CBranch? then EdgeFor(g.outs[b], Eval(ops[|ops| - 1].cond, s) != 0)
    else if |g.outs[b]| == 1 then Some(g.outs[b][0].to) else None
  }

  /** After n blocks, control is at `to` with the store s1. */
  ghost predicate Gets(g: Graph, b: nat, s: Store, n: nat, to: nat, s1: Store)
    requires g.Valid()
    decreases n
  {
    if n == 0 then b == to && s == s1
    else b < |g.ops| && var s2 := DoAll(g.ops[b], s);
        NextBlock(g, b, s2).Some? && Gets(g, NextBlock(g, b, s2).value, s2, n - 1, to, s1)
  }

  // ----- what is to be expanded

  /** rn is the variable, size its size in bytes, defs its constants; n and u are the numbers of
      blocks and of unique varnodes before the expansion. */
  datatype RawTask = Task(rn: Loc, size: nat, isSp: bool, defs: seq<int>, top: bool, outb: nat, n: nat, u: nat,
      zr: nat, sp: nat) {
    predicate Valid() {
      rn != Reg(zr) && (rn.Unique? ==> rn.u < u) && outb < n
    }
  }

  type Task = t: RawTask | t.Valid() witness Task(Reg(0), 4, false, [], false, 0, 1, 0, 17, 13)

  function SubOps(t: Task, v: int, u: nat): seq<Op> {
    (if t.isSp then [Use(Place(Reg(t.sp)))]
        else []) + [IntSub(Unique(u), Place(t.rn), Lit(v), t.size), IntEqual(Reg(t.zr), Place(Unique(u)), Lit(0))]
  }

  function BranchOps(t: Task, u: nat): seq<Op> {
    [IntEqual(Unique(u), Place(Reg(t.zr)), Lit(1)), CBranch(Place(Unique(u)))]
  }

  /** The number of constants that are compared: without an unknown case, the last one is not. */
  function Compared(t: Task): int {
    if t.top then |t.defs| else |t.defs| - 1
  }

  function Cmp(t: Task, i: nat): nat { t.n + 2 * i }

  /** Compare block i is complete but for the edge it takes when the values differ. */
  ghost predicate CompareAt(t: Task, g: Graph, i: nat)
    requires g.Valid() && i < |t.defs|
  {
    var c := Cmp(t, i);
    && c + 1 < |g.ops|
    && g.ops[c] == SubOps(t, t.defs[i], t.u + 3 * i) + BranchOps(t, t.u + 3 * i + 1)
    && g.ops[c + 1] == [CopyOp(t.rn, Lit(t.defs[i]), t.size)] && g.outs[c + 1] == [Out(t.outb, false)]
  }

  ghost predicate OutsAt(t: Task, g: Graph, i: nat, rest: seq<Out>)
    requires g.Valid()
  {
    Cmp(t, i) < |g.outs| && g.outs[Cmp(t, i)] == [Out(Cmp(t, i) + 1, true)] + rest
  }

  ghost predicate GoesOn(t: Task, g: Graph, i: nat)
    requires g.Valid()
  {
    OutsAt(t, g, i, [Out(Cmp(t, i + 1), false)])
  }

  /** The first i constants are compared, one after the other; the last block still waits for
      the edge that it takes when the values differ. */
  ghost predicate Building(t: Task, g: Graph, i: nat) {
    && g.Valid() && i <= |t.defs| && |g.ops| == t.n + 2 * i && g.uniq == t.u + 3 * i
    && (forall j {:trigger CompareAt(t, g, j)} :: 0 <= j < i ==> CompareAt(t, g, j))
    && forall j {:trigger GoesOn(t, g, j)} :: 0 <= j < i - 1 ==> GoesOn(t, g, j)
  }

  /** Blocks that were there before are as before, but for the edges of b. */
  ghost predicate OldKept(t: Task, g0: Graph, g: Graph, b: nat, outs: seq<Out>) {
    && g0.Valid() && g.Valid() && |g0.ops| == t.n && t.n <= |g.ops| && b < t.n
    && g.ops[..t.n] == g0.ops && g.outs[..t.n] == g0.outs[b := outs]
  }

  // ----- the graph, updated in place

  /** One end of an edge: the block that it comes from, and its slot among that block's out-edges. */
  datatype In = In(from: nat, slot: nat)

  /** Where the first edge from b stands. */
  function FirstFrom(es: seq<In>, b: nat): (k: nat)
    ensures k <= |es| && (k < |es| ==> es[k].from == b) && forall i :: 0 <= i < k ==> es[i].from != b
  {
    if es == [] || es[0].from == b then 0 else 1 + FirstFrom(es[1..], b)
  }

  function FirstSlot(es: seq<In>, b: nat): nat {
    if FirstFrom(es, b) < |es| then es[FirstFrom(es, b)].slot else 0
  }

  /** The first edge from a to c is known at both ends. */
  predicate HasTwin(outs: seq<seq<Out>>, ins: seq<seq<In>>, a: nat, c: nat)
    requires a < |outs| && c < |ins|
  {
    FirstFrom(ins[c], a) < |ins[c]| && FirstSlot(ins[c], a) < |outs[a]| && outs[a][FirstSlot(ins[c], a)].to == c
  }

  lemma FirstStays(es: seq<In>, more: seq<In>, b: nat)
    requires FirstFrom(es, b) < |es|
    ensures FirstFrom(es + more, b) == FirstFrom(es, b) && FirstSlot(es + more, b) == FirstSlot(es, b)
  {
    if es[0].from != b {
      assert (es + more)[1..] == es[1..] + more;
      FirstStays(es[1..], more, b);
    }
  }

  /** Slots behind the removed one move down. */
  function LowerRow(es: seq<In>, a: nat, slot: nat): (r: seq<In>)
    ensures |r| == |es|
  {
    seq(|es|, i requires 0 <= i < |es| => if es[i].from == a && es[i].slot > slot then In(a, es[i].slot - 1) else es[i])
  }

  // ----- both ends of the edges

  /** Every edge is known at both ends, and at its target just once. */
  ghost predicate Twins(outs: seq<seq<Out>>, ins: seq<seq<In>>) {
    && |ins| == |outs|
    && (forall c, k {:trigger ins[c][k]} :: 0 <= c < |ins| && 0 <= k < |ins[c]| ==> InKnown(outs, c, ins[c][k]))
    && (forall a, i {:trigger outs[a][i]} :: 0 <= a < |outs| && 0 <= i < |outs[a]| ==> OutKnown(outs, ins, a, i))
    && forall c {:trigger NoDuplicates(ins[c])} :: 0 <= c < |ins| ==> NoDuplicates(ins[c])
  }

  ghost predicate InKnown(outs: seq<seq<Out>>, c: nat, e: In) {
    e.from < |outs| && e.slot < |outs[e.from]| && outs[e.from][e.slot].to == c
  }

  ghost predicate OutKnown(outs: seq<seq<Out>>, ins: seq<seq<In>>, a: nat, i: nat)
    requires a < |outs| && i < |outs[a]|
  {
    outs[a][i].to < |ins| && In(a, i) in ins[outs[a][i].to]
  }

  lemma TwinsNew(outs: seq<seq<Out>>, ins: seq<seq<In>>)
    requires Twins(outs, ins)
    ensures Twins(outs + [[]], ins + [[]])
  {
    var O, I := outs + [[]], ins + [[]];
    forall c, k | 0 <= c < |I| && 0 <= k < |I[c]| ensures InKnown(O, c, I[c][k]) { assert InKnown(outs, c, ins[c][k]); }
    forall a, i | 0 <= a < |O| && 0 <= i < |O[a]| ensures OutKnown(O, I, a, i) { assert OutKnown(outs, ins, a, i); }
    forall c | 0 <= c < |I| ensures NoDuplicates(I[c]) { if c < |ins| { assert NoDuplicates(ins[c]); } }
  }

  lemma TwinsAdd(outs: seq<seq<Out>>, ins: seq<seq<In>>, a: nat, c: nat, isTrue: bool)
    requires Twins(outs, ins) && a < |outs| && c < |ins|
    ensures Twins(outs[a := outs[a] + [Out(c, isTrue)]], ins[c := ins[c] + [In(a, |outs[a]|)]])
  {
    var O, I := outs[a := outs[a] + [Out(c, isTrue)]], ins[c := ins[c] + [In(a, |outs[a]|)]];
    forall d, k | 0 <= d < |I| && 0 <= k < |I[d]| ensures InKnown(O, d, I[d][k]) {
      if k < |ins[d]| { assert InKnown(outs, d, ins[d][k]); }
    }
    forall b, i | 0 <= b < |O| && 0 <= i < |O[b]| ensures OutKnown(O, I, b, i) {
      if b == a && i == |outs[a]| {
        assert I[c][|ins[c]|] == In(a, i);
      } else {
        assert OutKnown(outs, ins, b, i);
        var d := outs[b][i].to;
        assert In(b, i) in ins[d];
      }
    }
    forall d | 0 <= d < |I| ensures NoDuplicates(I[d]) {
      assert NoDuplicates(ins[d]);
      forall k | 0 <= k < |ins[c]| ensures ins[c][k] != In(a, |outs[a]|) { assert InKnown(outs, c, ins[c][k]); }
    }
  }

  /** Where an out-edge stands after the one in slot of a is gone. */
  function Lowered(e: In, a: nat, slot: nat): In {
    if e.from == a && e.slot > slot then In(a, e.slot - 1) else e
  }

  lemma TwinsRemove(outs: seq<seq<Out>>, ins: seq<seq<In>>, a: nat, slot: nat, c: nat, k: nat, ins': seq<seq<In>>)
    requires Twins(outs, ins) && c < |ins| && k < |ins[c]| && ins[c][k] == In(a, slot)
    requires |ins'| == |ins|
    requires forall d :: 0 <= d < |ins| ==> ins'[d] == LowerRow(if d == c then Without(ins[c], k) else ins[d], a, slot)
    ensures a < |outs| && slot < |outs[a]| && Twins(outs[a := Without(outs[a], slot)], ins')
  {
    assert InKnown(outs, c, ins[c][k]);
    var O := outs[a := Without(outs[a], slot)];
    forall d, j | 0 <= d < |ins'| && 0 <= j < |ins'[d]| ensures InKnown(O, d, ins'[d][j]) {
      var i := OldPlace(outs, ins, a, slot, c, k, d, j);
      InStays(outs, a, slot, d, ins[d][i]);
    }
    forall b, i | 0 <= b < |O| && 0 <= i < |O[b]| ensures OutKnown(O, ins', b, i) {
      var was := if b == a && i >= slot then i + 1 else i;
      assert OutKnown(outs, ins, b, was);
      OutStays(outs, ins, a, slot, c, k, b, i, was, ins');
    }
    forall d | 0 <= d < |ins'| ensures NoDuplicates(ins'[d]) {
      RowsApart(outs, ins, a, slot, c, k, d);
    }
  }

  lemma InStays(outs: seq<seq<Out>>, a: nat, slot: nat, d: nat, e: In)
    requires a < |outs| && slot < |outs[a]| && InKnown(outs, d, e) && e != In(a, slot)
    ensures InKnown(outs[a := Without(outs[a], slot)], d, Lowered(e, a, slot))
  {
  }

  lemma OutStays(outs: seq<seq<Out>>, ins: seq<seq<In>>, a: nat, slot: nat, c: nat, k: nat, b: nat, i: nat, was: nat,
      ins': seq<seq<In>>)
    requires c < |ins| && k < |ins[c]| && ins[c][k] == In(a, slot) && |ins'| == |ins| == |outs|
    requires forall d :: 0 <= d < |ins| ==> ins'[d] == LowerRow(if d == c then Without(ins[c], k) else ins[d], a, slot)
    requires a < |outs| && slot < |outs[a]| && b < |outs| && i < |if b == a then Without(outs[a], slot) else outs[b]|
    requires was == (if b == a && i >= slot then i + 1 else i) && OutKnown(outs, ins, b, was)
    ensures OutKnown(outs[a := Without(outs[a], slot)], ins', b, i)
  {
    NewPlace(ins, a, slot, c, k, outs[b][was].to, In(b, was));
  }

  /** Every entry of a row comes from an old one, which is not the removed one. */
  lemma OldPlace(outs: seq<seq<Out>>, ins: seq<seq<In>>, a: nat, slot: nat, c: nat, k: nat, d: nat, j: nat)
      returns (i: nat)
    requires Twins(outs, ins) && c < |ins| && k < |ins[c]| && ins[c][k] == In(a, slot) && d < |ins|
    requires j < |if d == c then Without(ins[c], k) else ins[d]|
    ensures i == if d == c && j >= k then j + 1 else j
    ensures i < |ins[d]| && ins[d][i] != In(a, slot)
    ensures LowerRow(if d == c then Without(ins[c], k) else ins[d], a, slot)[j] == Lowered(ins[d][i], a, slot)
  {
    i := if d == c && j >= k then j + 1 else j;
    assert NoDuplicates(ins[c]);
    assert InKnown(outs, c, ins[c][k]) && InKnown(outs, d, ins[d][i]);
    if d == c { WithoutAt(ins[c], k, j); }
    LowerRowAt(if d == c then Without(ins[c], k) else ins[d], a, slot, j);
  }

  lemma WithoutAt(row: seq<In>, k: nat, j: nat)
    requires k < |row| && j < |row| - 1
    ensures |Without(row, k)| == |row| - 1 && Without(row, k)[j] == row[if j >= k then j + 1 else j]
  {
  }

  lemma LowerRowAt(row: seq<In>, a: nat, slot: nat, j: nat)
    requires j < |row|
    ensures LowerRow(row, a, slot)[j] == Lowered(row[j], a, slot)
  {
  }

  lemma NewPlace(ins: seq<seq<In>>, a: nat, slot: nat, c: nat, k: nat, d: nat, e: In)
    requires c < |ins| && k < |ins[c]| && ins[c][k] == In(a, slot) && d < |ins|
    requires e in ins[d] && e != In(a, slot)
    ensures Lowered(e, a, slot) in LowerRow(if d == c then Without(ins[c], k) else ins[d], a, slot)
  {
    if d == c { StillThere(ins[c], k, e); }
    LoweredThere(if d == c then Without(ins[c], k) else ins[d], a, slot, e);
  }

  lemma StillThere(row: seq<In>, k: nat, e: In)
    requires k < |row| && e in row && e != row[k]
    ensures e in Without(row, k)
  {
    var i :| 0 <= i < |row| && row[i] == e;
    assert Without(row, k)[if i > k then i - 1 else i] == e;
  }

  lemma LoweredThere(row: seq<In>, a: nat, slot: nat, e: In)
    requires e in row
    ensures Lowered(e, a, slot) in LowerRow(row, a, slot)
  {
    var j :| 0 <= j < |row| && row[j] == e;
    assert LowerRow(row, a, slot)[j] == Lowered(e, a, slot);
  }

  lemma RowsApart(outs: seq<seq<Out>>, ins: seq<seq<In>>, a: nat, slot: nat, c: nat, k: nat, d: nat)
    requires Twins(outs, ins) && c < |ins| && k < |ins[c]| && ins[c][k] == In(a, slot) && d < |ins|
    ensures NoDuplicates(LowerRow(if d == c then Without(ins[c], k) else ins[d], a, slot))
  {
    var row := LowerRow(if d == c then Without(ins[c], k) else ins[d], a, slot);
    assert NoDuplicates(ins[d]);
    forall i, j | 0 <= i < j < |row| ensures row[i] != row[j] {
      var p := OldPlace(outs, ins, a, slot, c, k, d, i);
      var q := OldPlace(outs, ins, a, slot, c, k, d, j);
      assert ins[d][p] != ins[d][q];
    }
  }

  class FlowGraph {
    var ops: seq<seq<Op>>
    var outs: seq<seq<Out>>
    var ins: seq<seq<In>>
    var uniq: nat

    constructor ()
      ensures View() == Graph([], [], 0) && ins == []
    {
      ops, outs, ins, uniq := [], [], [], 0;
    }

    function View(): Graph
      reads this
    {
      Graph(ops, outs, uniq)
    }

    method NewBlock() returns (b: nat)
      modifies this
      ensures b == |old(ops)| && ops == old(ops) + [[]] && outs == old(outs) + [[]] && ins == old(ins) + [[]] &&
          uniq == old(uniq)
      ensures old(Twins(outs, ins)) ==> Twins(outs, ins)
    {
      b := |ops|;
      if Twins(outs, ins) { TwinsNew(outs, ins); }
      ops, outs, ins := ops + [[]], outs + [[]], ins + [[]];
    }

    method AddEdge(a: nat, c: nat, isTrue: bool)
      requires a < |outs| && c < |ins|
      modifies this`outs, this`ins
      ensures outs == old(outs)[a := old(outs)[a] + [Out(c, isTrue)]] &&
          ins == old(ins)[c := old(ins)[c] + [In(a, |old(outs)[a]|)]]
      ensures old(Twins(outs, ins)) ==> Twins(outs, ins)
    {
      if Twins(outs, ins) { TwinsAdd(outs, ins, a, c, isTrue); }
      ins := ins[c := ins[c] + [In(a, |outs[a]|)]];
      outs := outs[a := outs[a] + [Out(c, isTrue)]];
    }

    /** remove_edge: the first of c's in-edges that comes from a, at both ends. */
    method RemoveEdge(a: nat, c: nat) returns (isTrue: bool)
      requires a < |outs| && c < |ins| && HasTwin(outs, ins, a, c)
      modifies this`outs, this`ins
      ensures var slot := FirstSlot(old(ins)[c], a);
          outs == old(outs)[a := Without(old(outs)[a], slot)] && isTrue == old(outs)[a][slot].isTrue
      ensures |ins| == |old(ins)| && (old(Twins(outs, ins)) ==> Twins(outs, ins))
    {
      var i := 0;
      while ins[c][i].from != a
        invariant 0 <= i < |ins[c]| && FirstFrom(ins[c], a) == i + FirstFrom(ins[c][i..], a)
        decreases |ins[c]| - i
      {
        assert ins[c][i..][1..] == ins[c][i + 1..];
        i := i + 1;
      }
      var slot := ins[c][i].slot;
      isTrue := outs[a][slot].isTrue;
      ghost var O, I := outs, ins;
      outs := outs[a := Without(outs[a], slot)];
      var rows := ins[c := Without(ins[c], i)];
      ins := seq(|rows|, k requires 0 <= k < |rows| => LowerRow(rows[k], a, slot));
      if Twins(O, I) { TwinsRemove(O, I, a, slot, c, i, ins); }
    }

    /** add_cmp_const: compare the variable with v. */
    method AddCmpConst(b: nat, t: Task, v: int)
      requires b < |ops|
      modifies this`ops, this`uniq
      ensures ops == old(ops)[b := old(ops)[b] + SubOps(t, v, old(uniq))] && uniq == old(uniq) + 1
    {
      var row := ops[b];
      if t.isSp { row := row + [Use(Place(Reg(t.sp)))]; }
      var u := uniq;
      uniq := uniq + 1;
      row := row + [IntSub(Unique(u), Place(t.rn), Lit(v), t.size)];
      row := row + [IntEqual(Reg(t.zr), Place(Unique(u)), Lit(0))];
      assert row == ops[b] + SubOps(t, v, u);
      ops := ops[b := row];
    }

    /** add__cbranch_eq with 1: branch when the comparison said equal. */
    method AddCbranchEq(b: nat, t: Task)
      requires b < |ops|
      modifies this`ops, this`uniq
      ensures ops == old(ops)[b := old(ops)[b] + BranchOps(t, old(uniq))] && uniq == old(uniq) + 2
    {
      var u := uniq;
      uniq := uniq + 2;
      ops := ops[b := ops[b] + [IntEqual(Unique(u), Place(Reg(t.zr)), Lit(1)), CBranch(Place(Unique(u)))]];
    }

    method AddCopyConst(b: nat, t: Task, v: int)
      requires b < |ops|
      modifies this`ops
      ensures ops == old(ops)[b := old(ops)[b] + [CopyOp(t.rn, Lit(v), t.size)]]
    {
      ops := ops[b := ops[b] + [CopyOp(t.rn, Lit(v), t.size)]];
    }

    /** The blocks for constant i: one that compares, one that copies. */
    method AddCompare(t: Task, i: nat)
      requires Building(t, View(), i) && i < |t.defs| && (i > 0 ==> OutsAt(t, View(), i - 1, [])) && |ins| == |outs|
      modifies this
      ensures View() == WithCompare(t, old(View()), i) && |ins| == |outs|
      ensures exists more :: ins[t.outb] == old(ins)[t.outb] + more
      ensures old(Twins(outs, ins)) ==> Twins(outs, ins)
    {
      var b1 := NewBlock();
      AddCmpConst(b1, t, t.defs[i]);
      AddCbranchEq(b1, t);
      assert ops[b1] == SubOps(t, t.defs[i], old(uniq)) + BranchOps(t, old(uniq) + 1);
      var b2 := NewBlock();
      AddCopyConst(b2, t, t.defs[i]);
      assert ops[b2] == [CopyOp(t.rn, Lit(t.defs[i]), t.size)];
      AddEdge(b1, b2, true);
      AddEdge(b2, t.outb, false);
      assert outs[b1] == [Out(b2, true)] && outs[b2] == [Out(t.outb, false)];
      assert ins[t.outb] == old(ins)[t.outb] + [In(b2, 0)];
      if i > 0 { AddEdge(b1 - 2, b1, false); }
      assert ops == WithCompare(t, old(View()), i).ops;
      assert outs == WithCompare(t, old(View()), i).outs;
    }

    /** The last constant, when the variable holds no other value: it is only copied. */
    method AddLast(t: Task, i: nat)
      requires Building(t, View(), i) && i > 0 && i == |t.defs| - 1 && OutsAt(t, View(), i - 1, []) && |ins| == |outs|
      modifies this
      ensures View() == WithLast(t, old(View()), i) && (old(Twins(outs, ins)) ==> Twins(outs, ins))
    {
      var b1 := NewBlock();
      AddCopyConst(b1, t, t.defs[i]);
      assert ops[b1] == [CopyOp(t.rn, Lit(t.defs[i]), t.size)];
      AddEdge(b1 - 2, b1, false);
      AddEdge(b1, t.outb, false);
      assert outs[b1] == [Out(t.outb, false)];
      assert ops == WithLast(t, old(View()), i).ops;
      assert outs == WithLast(t, old(View()), i).outs;
    }

    /** cond_copy_expand: an edge from b to the target of its out-edge outslot, the first one among
        the target's in-edges, now leads to the chain, and the chain to that target.  A single
        constant and nothing unknown makes the code follow a null block. */
    method CondCopyExpand(t: Task, b: nat, outslot: nat) returns (r: Result)
      requires View().Valid() && |ins| == |outs| && t.n == |ops| && t.u == uniq && b < t.n
      requires outslot < |outs[b]| && outs[b][outslot].to == t.outb && HasTwin(outs, ins, b, t.outb)
      modifies this
      ensures r == NoConstants <==> t.defs == []
      ensures r == NullBlock <==> |t.defs| == 1 && !t.top
      ensures r == NoConstants ==> View() == old(View())
      ensures old(Twins(outs, ins)) ==> Twins(outs, ins)
      ensures var slot := old(FirstSlot(ins[t.outb], b));
        r == Expanded ==> Chained(t, View()) && OldKept(t, old(View()), View(), b, Redirected(old(outs)[b], slot, t.n))
    {
      if |t.defs| == 0 { return NoConstants; }
      ghost var g0 := View();
      ghost var slot := FirstSlot(ins[t.outb], b);
      var i, b1 := 0, 0;
      while i < |t.defs|
        invariant 0 <= i <= |t.defs| && (i == |t.defs| ==> t.top) && Building(t, View(), i) && |ins| == |outs|
        invariant i > 0 ==> OutsAt(t, View(), i - 1, []) && b1 == Cmp(t, i - 1)
        invariant OldKept(t, g0, View(), b, if i == 0 then g0.outs[b] else Redirected(g0.outs[b], slot, t.n))
        invariant i == 0 ==> ins[t.outb] == old(ins)[t.outb]
        invariant old(Twins(outs, ins)) ==> Twins(outs, ins)
      {
        if i == |t.defs| - 1 && !t.top {
          if i == 0 { return NullBlock; }
          LastChained(t, View(), i, g0, b, Redirected(g0.outs[b], slot, t.n));
          AddLast(t, i);
          return Expanded;
        }
        AddNext(t, b, i, slot, g0, old(ins)[t.outb]);
        b1 := Cmp(t, i);
        i := i + 1;
      }
      ghost var g := View();
      AddEdge(b1, t.outb, false);
      ChainEnds(t, g0, g, View(), b, Redirected(g0.outs[b], slot, t.n));
      r := Expanded;
    }

    /** The blocks for constant i; with the first ones, the edge from b is redirected. */
    method AddNext(t: Task, b: nat, i: nat, ghost slot: nat, ghost g0: Graph, ghost in0: seq<In>)
      requires Building(t, View(), i) && i < |t.defs| && (i > 0 ==> OutsAt(t, View(), i - 1, [])) && |ins| == |outs|
      requires b < |g0.outs| && slot < |g0.outs[b]| && g0.outs[b][slot].to == t.outb
      requires OldKept(t, g0, View(), b, if i == 0 then g0.outs[b] else Redirected(g0.outs[b], slot, t.n))
      requires FirstFrom(in0, b) < |in0| && slot == FirstSlot(in0, b) && (i == 0 ==> ins[t.outb] == in0)
      modifies this
      ensures Building(t, View(), i + 1) && OutsAt(t, View(), i, []) && |ins| == |outs|
      ensures OldKept(t, g0, View(), b, Redirected(g0.outs[b], slot, t.n))
      ensures old(Twins(outs, ins)) ==> Twins(outs, ins)
    {
      CompareKept(t, View(), i, g0, b, if i == 0 then g0.outs[b] else Redirected(g0.outs[b], slot, t.n));
      AddCompare(t, i);
      if i == 0 { RedirectEdge(t, b, slot, g0, in0); }
    }

    /** The edge from b is taken away from its target and given to the first block of the chain. */
    method RedirectEdge(t: Task, b: nat, ghost slot: nat, ghost g0: Graph, ghost in0: seq<In>)
      requires |t.defs| > 0 && b < |g0.outs| && slot < |g0.outs[b]| && g0.outs[b][slot].to == t.outb && |ins| == |outs|
      requires Building(t, View(), 1) && OutsAt(t, View(), 0, []) && OldKept(t, g0, View(), b, g0.outs[b])
      requires FirstFrom(in0, b) < |in0| && slot == FirstSlot(in0, b) && exists more :: ins[t.outb] == in0 + more
      modifies this`outs, this`ins
      ensures Building(t, View(), 1) && OutsAt(t, View(), 0, []) && |ins| == |outs|
      ensures OldKept(t, g0, View(), b, Redirected(g0.outs[b], slot, t.n))
      ensures old(Twins(outs, ins)) ==> Twins(outs, ins)
    {
      EdgeAt(t, g0, View(), b);
      ghost var g := View();
      ghost var more :| ins[t.outb] == in0 + more;
      FirstStays(in0, more, b);
      var lab := RemoveEdge(b, t.outb);
      AddEdge(b, Cmp(t, 0), lab);
      assert outs == g.outs[b := Redirected(g0.outs[b], slot, t.n)];
      Redirecting(t, g0, g, View(), b, Redirected(g0.outs[b], slot, t.n));
    }
  }

  /** With only one edge to the target, that is the edge that is redirected. */
  lemma OnlyEdgeRedirected(outs: seq<seq<Out>>, ins: seq<seq<In>>, b: nat, outslot: nat)
    requires b < |outs| && outslot < |outs[b]| && outs[b][outslot].to < |ins| &&
        HasTwin(outs, ins, b, outs[b][outslot].to)
    requires forall k :: 0 <= k < |outs[b]| && outs[b][k].to == outs[b][outslot].to ==> k == outslot
    ensures FirstSlot(ins[outs[b][outslot].to], b) == outslot
  {
  }

  /** At most one edge for each outcome of the branch. */
  ghost predicate LabelsApart(es: seq<Out>) {
    forall i, j :: 0 <= i < j < |es| ==> es[i].isTrue != es[j].isTrue
  }

  /** The edge with the label of es[outslot] leads to c, the others go where they went. */
  ghost predicate AsAsked(es: seq<Out>, now: seq<Out>, outslot: nat, c: nat)
    requires outslot < |es|
  {
    forall taken :: EdgeFor(now, taken) == if taken == es[outslot].isTrue then Some(c) else EdgeFor(es, taken)
  }

  /** The edge that was asked for is the one that is redirected exactly when it is the first one
      among the target's in-edges from b. */
  lemma AskedEdgeRedirected(t: Task, g0: Graph, g: Graph, b: nat, outslot: nat, slot: nat)
    requires g0.Valid() && b < |g0.outs| && outslot < |g0.outs[b]| && slot < |g0.outs[b]|
    requires g0.outs[b][outslot].to == g0.outs[b][slot].to == t.outb && LabelsApart(g0.outs[b])
    requires OldKept(t, g0, g, b, Redirected(g0.outs[b], slot, t.n))
    ensures AsAsked(g0.outs[b], g.outs[b], outslot, t.n) <==> slot == outslot
  {
    var es, now := g0.outs[b], Redirected(g0.outs[b], slot, t.n);
    assert g.outs[..t.n][b] == g.outs[b];
    if |es| > 2 { TwoLabels(es); }
    if |es| == 1 {
      assert es == [es[0]] && now == [Out(t.n, es[0].isTrue)] && es[1..] == now[1..] == [];
    } else {
      var other := es[1 - slot];
      assert es == [es[0], es[1]] && now == [other, Out(t.n, es[slot].isTrue)];
      assert now[1..] == [Out(t.n, es[slot].isTrue)] && es[1..] == [es[1]];
      assert EdgeFor(now, es[slot].isTrue) == Some(t.n) && EdgeFor(now, other.isTrue) == Some(other.to);
      assert EdgeFor(es, other.isTrue) == Some(other.to);
      assert slot != outslot ==> EdgeFor(now, es[outslot].isTrue) != Some(t.n);
    }
  }

  lemma TwoLabels(es: seq<Out>)
    requires |es| > 2
    ensures !LabelsApart(es)
  {
    assert es[0].isTrue == es[1].isTrue || es[0].isTrue == es[2].isTrue || es[1].isTrue == es[2].isTrue;
  }

  /** Both edges of block 0 lead to block 1, the false edge was made first, and the true edge is to
      be expanded: the false edge is redirected instead.  A branch that is always taken never gets
      to the chain. */
  method RedirectsOtherEdge(zr: nat) returns (g: FlowGraph, t: Task, r: Result, ghost g0: Graph)
    ensures g0.Valid() && g0.ops == [[CBranch(Lit(1))], []] && g0.outs == [[Out(1, false), Out(1, true)], []]
    ensures r == Expanded && g.View().Valid() && Chained(t, g.View()) && t.n == 2 && t.outb == 1
    ensures OldKept(t, g0, g.View(), 0, Redirected(g0.outs[0], 0, 2)) && !AsAsked(g0.outs[0], g.View().outs[0], 1, 2)
    ensures forall s :: |g.View().ops| > 2 && NextBlock(g.View(), 0, s) == Some(1)
  {
    g := ParallelEdges();
    t := RawTask.Task(Unique(0), 4, false, [3, 5], false, 1, 2, 1, zr, 0);
    g0 := g.View();
    assert FirstFrom(g.ins[1], 0) == 0;
    r := g.CondCopyExpand(t, 0, 1);
    AskedEdgeRedirected(t, g0, g.View(), 0, 1, 0);
    OtherTaken(t, g0, g.View());
  }

  method ParallelEdges() returns (g: FlowGraph)
    ensures fresh(g) && g.ops == [[CBranch(Lit(1))], []] && g.uniq == 1
    ensures g.outs == [[Out(1, false), Out(1, true)], []] && g.ins == [[], [In(0, 0), In(0, 1)]]
  {
    g := new FlowGraph();
    var b0 := g.NewBlock();
    var b1 := g.NewBlock();
    g.AddEdge(b0, b1, false);
    assert g.outs[0] == [Out(1, false)] && g.ins[1] == [In(0, 0)];
    g.AddEdge(b0, b1, true);
    assert g.outs[0] == [Out(1, false), Out(1, true)] && g.ins[1] == [In(0, 0), In(0, 1)];
    g.ops, g.uniq := [[CBranch(Lit(1))], []], 1;
    assert g.outs == [[Out(1, false), Out(1, true)], []] && g.ins == [[], [In(0, 0), In(0, 1)]];
  }

  lemma OtherTaken(t: Task, g0: Graph, g: Graph)
    requires g0.ops == [[CBranch(Lit(1))], []] && g0.outs == [[Out(1, false), Out(1, true)], []] && t.n == 2
    requires OldKept(t, g0, g, 0, Redirected(g0.outs[0], 0, 2))
    ensures forall s :: NextBlock(g, 0, s) == Some(1)
  {
    assert g.ops[..2][0] == g.ops[0] && g.outs[..2][0] == g.outs[0];
    assert g.outs[0] == [Out(1, true), Out(2, false)];
  }

  datatype Result = NoConstants | NullBlock | Expanded

  /** The edge in `slot` is gone; an edge to c with its label stands at the end. */
  function Redirected(es: seq<Out>, slot: nat, c: nat): seq<Out>
    requires slot < |es|
  {
    Without(es, slot) + [Out(c, es[slot].isTrue)]
  }

  /** The whole chain: block i tests constant i and goes on to the next block, or, at the end,
      to the old target; a last block copies the last constant when nothing else is possible. */
  ghost predicate Chained(t: Task, g: Graph) {
    && g.Valid()
    && (forall j {:trigger CompareAt(t, g, j)} :: 0 <= j < Compared(t) ==> CompareAt(t, g, j))
    && (forall j {:trigger OutsAt(t, g, j, [Out(Otherwise(t, j), false)])} ::
        0 <= j < Compared(t) ==> OutsAt(t, g, j, [Out(Otherwise(t, j), false)]))
    && (!t.top ==> |t.defs| > 0 && LastAt(t, g, |t.defs| - 1))
  }

  function Otherwise(t: Task, i: nat): nat {
    if i + 1 < |t.defs| then Cmp(t, i + 1) else t.outb
  }

  ghost predicate LastAt(t: Task, g: Graph, i: nat)
    requires g.Valid() && i < |t.defs|
  {
    Cmp(t, i) < |g.ops| && g.ops[Cmp(t, i)] == [CopyOp(t.rn, Lit(t.defs[i]), t.size)] &&
        g.outs[Cmp(t, i)] == [Out(t.outb, false)]
  }

  /** The edge to block c from the comparison before it, which the values' difference takes. */
  function Linked(t: Task, outs: seq<seq<Out>>, i: nat): seq<seq<Out>>
    requires i > 0 ==> Cmp(t, i - 1) < |outs|
  {
    if i == 0 then outs else outs[Cmp(t, i - 1) := outs[Cmp(t, i - 1)] + [Out(Cmp(t, i), false)]]
  }

  function WithCompare(t: Task, g: Graph, i: nat): Graph
    requires i < |t.defs| && (i > 0 ==> Cmp(t, i - 1) < |g.outs|)
  {
    Graph(g.ops + [SubOps(t, t.defs[i], g.uniq) + BranchOps(t, g.uniq + 1)] + [[CopyOp(t.rn, Lit(t.defs[i]), t.size)]],
          Linked(t, g.outs, i) + [[Out(Cmp(t, i) + 1, true)]] + [[Out(t.outb, false)]], g.uniq + 3)
  }

  function WithLast(t: Task, g: Graph, i: nat): Graph
    requires 0 < i < |t.defs| && Cmp(t, i - 1) < |g.outs|
  {
    Graph(g.ops + [[CopyOp(t.rn, Lit(t.defs[i]), t.size)]], Linked(t, g.outs, i) + [[Out(t.outb, false)]], g.uniq)
  }

  lemma CompareKept(t: Task, g: Graph, i: nat, g0: Graph, b: nat, es: seq<Out>)
    requires Building(t, g, i) && i < |t.defs| && (i > 0 ==> OutsAt(t, g, i - 1, [])) && OldKept(t, g0, g, b, es)
    ensures var g' := WithCompare(t, g, i); Building(t, g', i + 1) && OutsAt(t, g', i, []) && OldKept(t, g0, g', b, es)
  {
    var g' := WithCompare(t, g, i);
    forall j | 0 <= j < i + 1 ensures CompareAt(t, g', j) {
      if j < i { assert CompareAt(t, g, j); }
    }
    forall j | 0 <= j < i ensures GoesOn(t, g', j) {
      if j < i - 1 { assert GoesOn(t, g, j); }
    }
  }

  /** The last constant is only copied, and the chain is complete. */
  lemma LastChained(t: Task, g: Graph, i: nat, g0: Graph, b: nat, es: seq<Out>)
    requires Building(t, g, i) && 0 < i == |t.defs| - 1 && !t.top && OutsAt(t, g, i - 1, []) && OldKept(t, g0, g, b, es)
    ensures Chained(t, WithLast(t, g, i)) && OldKept(t, g0, WithLast(t, g, i), b, es)
  {
    var g' := WithLast(t, g, i);
    forall j | 0 <= j < i ensures CompareAt(t, g', j) { assert CompareAt(t, g, j); }
    forall j | 0 <= j < i ensures OutsAt(t, g', j, [Out(Otherwise(t, j), false)]) {
      if j < i - 1 { assert GoesOn(t, g, j); }
    }
  }

  /** Every constant was compared, and the last comparison gets its edge to the old target. */
  lemma ChainEnds(t: Task, g0: Graph, g: Graph, g': Graph, b: nat, es: seq<Out>)
    requires Building(t, g, |t.defs|) && |t.defs| > 0 && t.top && OutsAt(t, g, |t.defs| - 1, []) &&
        OldKept(t, g0, g, b, es)
    requires g' == g.(outs := g.outs[Cmp(t, |t.defs| - 1) := g.outs[Cmp(t, |t.defs| - 1)] + [Out(t.outb, false)]])
    ensures Chained(t, g') && OldKept(t, g0, g', b, es)
  {
    forall j | 0 <= j < |t.defs| ensures CompareAt(t, g', j) { assert CompareAt(t, g, j); }
    forall j | 0 <= j < |t.defs| ensures OutsAt(t, g', j, [Out(Otherwise(t, j), false)]) {
      if j < |t.defs| - 1 { assert GoesOn(t, g, j); }
    }
  }

  lemma EdgeAt(t: Task, g0: Graph, g: Graph, b: nat)
    requires b < |g0.outs| && OldKept(t, g0, g, b, g0.outs[b])
    ensures g.outs[b] == g0.outs[b]
  {
    assert g.outs[..t.n][b] == g.outs[b];
  }

  lemma Redirecting(t: Task, g0: Graph, g: Graph, g': Graph, b: nat, es: seq<Out>)
    requires b < |g0.outs| && Building(t, g, 1) && |t.defs| > 0 && OutsAt(t, g, 0, []) &&
        OldKept(t, g0, g, b, g0.outs[b]) && g' == g.(outs := g.outs[b := es])
    ensures Building(t, g', 1) && OutsAt(t, g', 0, []) && OldKept(t, g0, g', b, es)
  {
    assert CompareAt(t, g, 0);
    assert g'.outs[..t.n] == g.outs[..t.n][b := es];
  }

  // ----- what the chain does

  /** The stores agree outside the zero flag and the new temporaries. */
  ghost predicate Undisturbed(t: Task, s: Store, s1: Store) {
    forall l: Loc {:trigger s1(l)} :: Visible(t, l) ==> s1(l) == s(l)
  }

  predicate Visible(t: Task, l: Loc) {
    l != Reg(t.zr) && (l.Unique? ==> l.u < t.u)
  }

  lemma {:induction false} DoAllParts(a: seq<Op>, b: seq<Op>, s: Store)
    ensures DoAll(a + b, s) == DoAll(b, DoAll(a, s))
    decreases |a|
  {
    if a == [] {
      assert a + b == b;
    } else {
      assert (a + b)[1..] == a[1..] + b;
      DoAllParts(a[1..], b, Do(a[0], s));
    }
  }

  lemma DoTwo(a: Op, b: Op, s: Store)
    ensures DoAll([a, b], s) == Do(b, Do(a, s))
  {
    assert [a, b][1..] == [b] && [b][1..] == [];
    assert DoAll([b], Do(a, s)) == DoAll([], Do(b, Do(a, s)));
  }

  /** A compare block tells whether the variable has the constant's value. */
  lemma CompareRuns(t: Task, s: Store, v: int, u: nat)
    requires u >= t.u && 0 <= s(t.rn) < Pow256(t.size)
    ensures var ops := SubOps(t, v, u) + BranchOps(t, u + 1); var s1 := DoAll(ops, s);
      && ops[|ops| - 1].CBranch? && (Eval(ops[|ops| - 1].cond, s1) != 0 <==> s(t.rn) == v % Pow256(t.size))
      && Undisturbed(t, s, s1) && s1(t.rn) == s(t.rn)
  {
    var sub, eq := IntSub(Unique(u), Place(t.rn), Lit(v), t.size), IntEqual(Reg(t.zr), Place(Unique(u)), Lit(0));
    var eq2, br := IntEqual(Unique(u + 1), Place(Reg(t.zr)), Lit(1)), CBranch(Place(Unique(u + 1)));
    var s0 := DoAll(if t.isSp then [Use(Place(Reg(t.sp)))] else [], s);
    assert [Use(Place(Reg(t.sp)))][1..] == [];
    assert DoAll([], Do(Use(Place(Reg(t.sp))), s)) == s;
    assert s0 == s;
    DoAllParts(if t.isSp then [Use(Place(Reg(t.sp)))] else [], [sub, eq], s);
    DoAllParts(SubOps(t, v, u), [eq2, br], s);
    DoTwo(sub, eq, s);
    DoTwo(eq2, br, Do(eq, Do(sub, s)));
    SubZero(s(t.rn), v, Pow256(t.size));
  }

  lemma SubZero(a: int, v: int, m: int)
    requires 0 <= a < m
    ensures (a - v) % m == 0 <==> a == v % m
  {
    if (a - v) % m == 0 {
      MulDistributes(v / m, (a - v) / m, m);
      SmallMultiple(v / m + (a - v) / m, m, a - v % m);
    }
    if a == v % m {
      var d, k := (a - v) % m, (a - v) / m;
      MulDistributes(v / m, k, m);
      SmallMultiple(v / m + k, m, -d);
    }
  }

  lemma CopyRuns(t: Task, s: Store, v: int)
    ensures DoAll([CopyOp(t.rn, Lit(v), t.size)], s) == Set(s, t.rn, v % Pow256(t.size))
  {
    var c := CopyOp(t.rn, Lit(v), t.size);
    assert [c][1..] == [];
    assert DoAll([], Do(c, s)) == Do(c, s);
  }

  /** The value is that of one of the constants from i on. */
  ghost predicate Among(t: Task, i: nat, x: int) {
    exists j :: i <= j < |t.defs| && x == t.defs[j] % Pow256(t.size)
  }

  /** From compare block i on, control gets to the old target.  The variable keeps its value
      when it has one of the constants or when there is an unknown case; else it is changed. */
  lemma {:induction false} ChainRuns(t: Task, g: Graph, i: nat, s: Store) returns (k: nat, s1: Store)
    requires Chained(t, g) && i < |t.defs| && 0 <= s(t.rn) < Pow256(t.size)
    ensures Gets(g, Cmp(t, i), s, k, t.outb, s1)
    ensures forall l: Loc {:trigger s1(l)} :: Visible(t, l) && l != t.rn ==> s1(l) == s(l)
    ensures s1(t.rn) == s(t.rn) <==> t.top || Among(t, i, s(t.rn))
    decreases |t.defs| - i
  {
    var c := Cmp(t, i);
    if i < Compared(t) {
      assert CompareAt(t, g, i) && OutsAt(t, g, i, [Out(Otherwise(t, i), false)]);
      CompareRuns(t, s, t.defs[i], t.u + 3 * i);
      var s2 := DoAll(g.ops[c], s);
      var es := g.outs[c];
      assert es == [Out(c + 1, true), Out(Otherwise(t, i), false)];
      EdgesFor(c + 1, Otherwise(t, i));
      if s(t.rn) == t.defs[i] % Pow256(t.size) {
        CopyRuns(t, s2, t.defs[i]);
        s1 := DoAll(g.ops[c + 1], s2);
        assert Gets(g, t.outb, s1, 0, t.outb, s1);
        assert NextBlock(g, c + 1, s1) == Some(t.outb);
        assert Gets(g, c + 1, s2, 1, t.outb, s1);
        k := 2;
      } else if i + 1 < |t.defs| {
        k, s1 := ChainRuns(t, g, i + 1, s2);
        k := k + 1;
      } else {
        s1 := s2;
        k := 1;
        assert Gets(g, t.outb, s1, 0, t.outb, s1);
      }
    } else {
      assert LastAt(t, g, i);
      CopyRuns(t, s, t.defs[i]);
      s1 := DoAll(g.ops[c], s);
      assert Gets(g, t.outb, s1, 0, t.outb, s1);
      k := 1;
    }
  }

  lemma EdgesFor(a: nat, b: nat)
    ensures var es := [Out(a, true), Out(b, false)]; EdgeFor(es, true) == Some(a) && EdgeFor(es, false) == Some(b)
  {
    var es := [Out(a, true), Out(b, false)];
    assert es[1..] == [Out(b, false)];
    assert EdgeFor(es[1..], false) == Some(b);
  }

  /** Taking the redirected edge: the old target is reached with the variable unchanged exactly
      when its value is among the constants or an unknown case is kept. */
  lemma ExpansionKeepsVariable(t: Task, g0: Graph, g: Graph, b: nat, slot: nat, s: Store) returns (k: nat, s1: Store)
    requires g0.Valid() && b < |g0.outs| && slot < |g0.outs[b]|
    requires Chained(t, g) && |t.defs| > 0 && OldKept(t, g0, g, b, Redirected(g0.outs[b], slot, t.n)) &&
        0 <= s(t.rn) < Pow256(t.size)
    ensures g.outs[b][|g.outs[b]| - 1] == Out(t.n, g0.outs[b][slot].isTrue) && Gets(g, t.n, s, k, t.outb, s1)
    ensures Undisturbed(t, s, s1) <==> t.top || Among(t, 0, s(t.rn))
  {
    assert g.outs[..t.n][b] == g.outs[b];
    k, s1 := ChainRuns(t, g, 0, s);
    assert Visible(t, t.rn);
  }

  /** Collecting and expanding together: when no definition is unknown and none is missing, the
      chain leaves the variable as it was, whichever path led there. */
  lemma CollectedKeepsVariable(y: VF.FlowSsa, start: PcodeOp, st: CD.Search, w: VF.World, T: seq<VF.Visit>,
                               t: Task, g0: Graph, g: Graph, b: nat, slot: nat, s: Store) returns (k: nat, s1: Store)
    requires CD.Complete(y, start, st) && CD.StoresTyped(y) && st.tdefs == [] &&
        CD.NoneMissing(y, CD.Web(y, start))
    requires VF.PathTo(y, T, start) && s(t.rn) == VF.Value(y, w, T, start) % Pow256(t.size)
    requires |t.defs| == |st.defs| > 0 && forall j :: 0 <= j < |st.defs| ==> t.defs[j] == y.kind[st.defs[j]].v
    requires g0.Valid() && b < |g0.outs| && slot < |g0.outs[b]|
    requires Chained(t, g) && OldKept(t, g0, g, b, Redirected(g0.outs[b], slot, t.n))
    ensures Gets(g, t.n, s, k, t.outb, s1) && Undisturbed(t, s, s1)
  {
    CD.ConstantsCover(y, start, st, w, T);
    var j :| 0 <= j < |st.defs| && y.kind[st.defs[j]].v == VF.Value(y, w, T, start);
    assert s(t.rn) == t.defs[j] % Pow256(t.size);
    assert Among(t, 0, s(t.rn));
    k, s1 := ExpansionKeepsVariable(t, g0, g, b, slot, s);
  }
}
