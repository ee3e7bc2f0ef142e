/** The operations that refinement puts in, and that they keep the meaning of the code. */
module PieceOps {
  import opened Bits
  import opened Sequences
  import opened ByteStrings
  import opened Refinement

  // ----- what operations do

  datatype State = State(mem: nat -> Byte, temps: nat -> nat)

  /** A piece joins its two inputs, a subpiece takes bytes from `off` on out of its input; other
      operations compute some function of their inputs, and `fn` says which. */
  datatype Kind = Other(fn: nat) | Piece | Subpiece(off: nat)

  /** id tells operations apart; those that refinement puts in have none. */
  datatype Op = Op(id: Option<nat>, kind: Kind, ins: seq<Vn>, out: Vn)

  function PieceOp(out: Vn, hi: Vn, lo: Vn): Op {
    Op(None, Piece, [hi, lo], out)
  }

  function SubpieceOp(out: Vn, src: Vn, off: nat): Op {
    Op(None, Subpiece(off), [src], out)
  }

  /** How the machine reads: the order of bytes, and what the other operations compute. */
  datatype Machine = Machine(big: bool, fun: (nat, seq<nat>) -> nat)

  /** The n bytes at off, the least significant one first. */
  function Span(m: nat -> Byte, off: nat, n: nat, big: bool): (r: seq<Byte>)
    ensures |r| == n
    decreases n
  {
    if n == 0 then [] else if big then [m(off + n - 1)] + Span(m, off, n - 1, big)
        else [m(off)] + Span(m, off + 1, n - 1, big)
  }

  function Read(c: Machine, s: State, vn: Vn): nat {
    match vn
    case Mem(off, size) => ToNum(Span(s.mem, off, size, c.big))
    case Temp(id, _) => s.temps(id)
  }

  /** Which byte of the number at off, of size bytes, is at k. */
  function ByteIndex(off: nat, size: nat, big: bool, k: nat): nat {
    if big then (if k < off + size then off + size - 1 - k else 0) else if k < off then 0 else k - off
  }

  function WriteMem(m: nat -> Byte, off: nat, size: nat, x: nat, big: bool): nat -> Byte {
    (k: nat) => if off <= k < off + size then Digit(x, ByteIndex(off, size, big, k)) else m(k)
  }

  function WriteTemp(t: nat -> nat, id: nat, x: nat): nat -> nat {
    (k: nat) => if k == id then x else t(k)
  }

  function Write(c: Machine, s: State, vn: Vn, x: nat): State {
    match vn
    case Mem(off, size) => s.(mem := WriteMem(s.mem, off, size, x, c.big))
    case Temp(id, size) => s.(temps := WriteTemp(s.temps, id, ToNum(ToBytes(x, size))))
  }

  function ReadAll(c: Machine, s: State, vns: seq<Vn>): (r: seq<nat>)
    ensures |r| == |vns|
  {
    seq(|vns|, i requires 0 <= i < |vns| => Read(c, s, vns[i]))
  }

  /** A piece is the concatenation of the bytes of two numbers, a subpiece some bytes of one. */
  function Value(c: Machine, s: State, op: Op): nat {
    var xs := ReadAll(c, s, op.ins);
    match op.kind
    case Other(fn) => c.fun(fn, xs)
    case Piece => if |xs| != 2 then 0 else ToNum(ToBytes(xs[1], op.ins[1].size) + ToBytes(xs[0], op.ins[0].size))
    case Subpiece(off) => if |xs| != 1 then 0 else Middle(xs[0], off, op.out.size)
  }

  function Do(c: Machine, s: State, op: Op): State {
    Write(c, s, op.out, Value(c, s, op))
  }

  function Exec(c: Machine, s: State, ops: seq<Op>): State
    decreases |ops|
  {
    if ops == [] then s else Do(c, Exec(c, s, ops[..|ops| - 1]), ops[|ops| - 1])
  }

  lemma {:induction false} ExecParts(c: Machine, s: State, a: seq<Op>, b: seq<Op>)
    ensures Exec(c, s, a + b) == Exec(c, Exec(c, s, a), b)
    decreases |b|
  {
    if b == [] {
      assert a + b == a;
    } else {
      var ab := a + b;
      assert ab[..|ab| - 1] == a + b[..|b| - 1];
      ExecParts(c, s, a, b[..|b| - 1]);
    }
  }

  lemma ExecNext(c: Machine, s: State, a: seq<Op>, op: Op)
    ensures Exec(c, s, a + [op]) == Do(c, Exec(c, s, a), op)
  {
    var b := a + [op];
    assert b[..|b| - 1] == a;
  }

  // ----- states that agree on everything but new temporaries

  ghost predicate Agree(s: State, s1: State, u: nat) {
    (forall k: nat :: s1.mem(k) == s.mem(k)) && SameTemps(s, s1, u)
  }

  ghost predicate SameTemps(s: State, s1: State, u: nat) {
    forall id: nat :: id < u ==> s1.temps(id) == s.temps(id)
  }

  predicate Old(vn: Vn, u: nat) {
    vn.Temp? ==> vn.id < u
  }

  ghost predicate OldOp(op: Op, u: nat) {
    Old(op.out, u) && forall i :: 0 <= i < |op.ins| ==> Old(op.ins[i], u)
  }

  ghost predicate OldOps(ops: seq<Op>, u: nat) {
    forall i :: 0 <= i < |ops| ==> OldOp(ops[i], u)
  }

  lemma {:induction false} SpanSame(m: nat -> Byte, m1: nat -> Byte, off: nat, n: nat, big: bool)
    requires forall k: nat :: off <= k < off + n ==> m1(k) == m(k)
    ensures Span(m1, off, n, big) == Span(m, off, n, big)
    decreases n
  {
    if n > 0 { if big { SpanSame(m, m1, off, n - 1, big); } else { SpanSame(m, m1, off + 1, n - 1, big); } }
  }

  lemma ReadSame(c: Machine, s: State, s1: State, vn: Vn, u: nat)
    requires Agree(s, s1, u) && Old(vn, u)
    ensures Read(c, s1, vn) == Read(c, s, vn)
  {
    if vn.Mem? { SpanSame(s.mem, s1.mem, vn.off, vn.size, c.big); }
  }

  lemma DoSame(c: Machine, s: State, s1: State, op: Op, u: nat)
    requires Agree(s, s1, u) && OldOp(op, u)
    ensures Agree(Do(c, s, op), Do(c, s1, op), u)
  {
    forall i | 0 <= i < |op.ins| ensures Read(c, s1, op.ins[i]) == Read(c, s, op.ins[i]) {
      ReadSame(c, s, s1, op.ins[i], u);
    }
    assert ReadAll(c, s1, op.ins) == ReadAll(c, s, op.ins);
  }

  lemma {:induction false} ExecSame(c: Machine, s: State, s1: State, ops: seq<Op>, u: nat)
    requires Agree(s, s1, u) && OldOps(ops, u)
    ensures Agree(Exec(c, s, ops), Exec(c, s1, ops), u)
    decreases |ops|
  {
    if ops != [] {
      ExecSame(c, s, s1, ops[..|ops| - 1], u);
      DoSame(c, Exec(c, s, ops[..|ops| - 1]), Exec(c, s1, ops[..|ops| - 1]), ops[|ops| - 1], u);
    }
  }

  // ----- concatenation

  function SizeTo(vs: seq<Vn>, k: nat): nat
    requires k < |vs|
  {
    vs[k].size + if k == 0 then 0 else SizeTo(vs, k - 1)
  }

  /** The varnode that holds the first k + 1 pieces. */
  function Joined(vs: seq<Vn>, k: nat, final: Vn, u: nat): Vn
    requires k < |vs|
  {
    if k == 0 then vs[0] else if k == |vs| - 1 then final else Temp(u + k - 1, SizeTo(vs, k))
  }

  function JoinOp(vs: seq<Vn>, k: nat, final: Vn, u: nat, big: bool): Op
    requires 0 < k < |vs|
  {
    var pre := Joined(vs, k - 1, final, u);
    if big then PieceOp(Joined(vs, k, final, u), pre, vs[k]) else PieceOp(Joined(vs, k, final, u), vs[k], pre)
  }

  function JoinOps(vs: seq<Vn>, k: nat, final: Vn, u: nat, big: bool): seq<Op>
    requires k < |vs|
  {
    if k == 0 then [] else JoinOps(vs, k - 1, final, u, big) + [JoinOp(vs, k, final, u, big)]
  }

  /** concat_pieces: the operations that join the pieces into finalvn. */
  method ConcatPieces(vs: seq<Vn>, final: Vn, big: bool, uniq: nat) returns (ops: seq<Op>, uniq': nat)
    requires |vs| > 1
    ensures ops == JoinOps(vs, |vs| - 1, final, uniq, big) && uniq' == uniq + |vs| - 2
  {
    var preexist := vs[0];
    ops, uniq' := [], uniq;
    var i := 1;
    while i < |vs|
      invariant 1 <= i <= |vs| && ops == JoinOps(vs, i - 1, final, uniq, big) &&
          preexist == Joined(vs, i - 1, final, uniq)
      invariant i < |vs| ==> preexist.size == SizeTo(vs, i - 1) && uniq' == uniq + i - 1
      invariant i == |vs| ==> uniq' == uniq + |vs| - 2
    {
      var vn := vs[i];
      var newvn := final;
      if i != |vs| - 1 {
        newvn := Temp(uniq', preexist.size + vn.size);
        uniq' := uniq' + 1;
      }
      ops := ops + [if big then PieceOp(newvn, preexist, vn) else PieceOp(newvn, vn, preexist)];
      preexist := newvn;
      i := i + 1;
    }
  }

  /** The pieces lie one behind the other from `from` to `to`. */
  ghost predicate Row(vs: seq<Vn>, from: nat, to: nat) {
    (forall i :: 0 <= i < |vs| ==> vs[i].Mem?) && Consecutive(vs, from, to)
  }

  lemma {:induction false} RowAt(vs: seq<Vn>, from: nat, to: nat, k: nat)
    requires Row(vs, from, to) && k < |vs|
    ensures vs[k].off == from + SizeTo(vs, k) - vs[k].size && from + SizeTo(vs, k) <= to
    ensures k == |vs| - 1 ==> from + SizeTo(vs, k) == to
    decreases |vs|, k
  {
    var n := |vs| - 1;
    if k < n {
      RowAt(vs[..n], from, vs[n].off, k);
      SizeToPrefix(vs, n, k);
    } else if n > 0 {
      RowAt(vs[..n], from, vs[n].off, n - 1);
      SizeToPrefix(vs, n, n - 1);
    } else {
      assert vs[..0] == [] && Consecutive(vs[..0], from, vs[0].off);
    }
  }

  lemma {:induction false} SizeToPrefix(vs: seq<Vn>, n: nat, k: nat)
    requires k < n <= |vs|
    ensures SizeTo(vs[..n], k) == SizeTo(vs, k)
  {
    if k > 0 { SizeToPrefix(vs, n, k - 1); }
  }

  lemma {:induction false} SpanJoin(m: nat -> Byte, off: nat, a: nat, b: nat, big: bool)
    ensures Span(m, off, a + b, big) == if big then Span(m, off + a, b, big) + Span(m, off, a, big)
        else Span(m, off, a, big) + Span(m, off + a, b, big)
    decreases if big then b else a
  {
    if big {
      if b > 0 { SpanJoin(m, off, a, b - 1, big); }
    } else if a > 0 {
      SpanJoin(m, off + 1, a - 1, b, big);
    }
  }

  /** One join: the a bytes that pre holds and the b bytes behind them. */
  lemma JoinStep(c: Machine, m: nat -> Byte, s0: State, op: Op, pre: Vn, vn: Vn, out: Vn, from: nat, a: nat, b: nat)
    requires op == if c.big then PieceOp(out, pre, vn) else PieceOp(out, vn, pre)
    requires Read(c, s0, pre) == ToNum(Span(m, from, a, c.big)) && pre.size == a && vn.size == b
    requires Read(c, s0, vn) == ToNum(Span(m, from + a, b, c.big)) && out.Temp? && out.size == a + b
    ensures var s1 := Do(c, s0, op);
        Read(c, s1, out) == ToNum(Span(m, from, a + b, c.big)) &&
        s1 == s0.(temps := WriteTemp(s0.temps, out.id, ToNum(Span(m, from, a + b, c.big))))
  {
    BytesOfNum(Span(m, from, a, c.big));
    BytesOfNum(Span(m, from + a, b, c.big));
    BytesOfNum(Span(m, from, a + b, c.big));
    SpanJoin(m, from, a, b, c.big);
    TempRead(c, s0, out, ToNum(Span(m, from, a + b, c.big)));
  }

  lemma TempRead(c: Machine, s: State, out: Vn, x: nat)
    requires out.Temp?
    ensures Read(c, s.(temps := WriteTemp(s.temps, out.id, x)), out) == x
  {
  }

  lemma TempAgrees(s: State, s0: State, id: nat, x: nat, u: nat)
    requires SameTemps(s, s0, u) && u <= id
    ensures SameTemps(s, s0.(temps := WriteTemp(s0.temps, id, x)), u)
  {
  }

  lemma JoinShape(vs: seq<Vn>, k: nat, final: Vn, u: nat, big: bool, from: nat, to: nat)
    requires Row(vs, from, to) && 0 < k < |vs| && final.Temp? && final.id < u && final.size == to - from
    ensures var pre, out := Joined(vs, k - 1, final, u), Joined(vs, k, final, u);
      && JoinOp(vs, k, final, u, big) == (if big then PieceOp(out, pre, vs[k]) else PieceOp(out, vs[k], pre))
      && vs[k] == Mem(from + SizeTo(vs, k - 1), vs[k].size) && out.Temp? && final.id <= out.id &&
          out.size == SizeTo(vs, k - 1) + vs[k].size
  {
    RowAt(vs, from, to, k);
  }

  /** In s1, vn holds what memory had in s from `from` on; only temporaries from u on differ. */
  ghost predicate Holds(c: Machine, s: State, s1: State, vn: Vn, from: nat, n: nat, u: nat) {
    s1.mem == s.mem && SameTemps(s, s1, u) && Read(c, s1, vn) == ToNum(Span(s.mem, from, n, c.big)) && vn.size == n
  }

  /** After k joins, the first k + 1 pieces are together; memory and old temporaries are as before. */
  lemma {:induction false} JoinRuns(c: Machine, s: State, vs: seq<Vn>, k: nat, final: Vn, u: nat, from: nat, to: nat)
    requires Row(vs, from, to) && k < |vs| && final.Temp? && final.id < u && final.size == to - from
    ensures Holds(c, s, Exec(c, s, JoinOps(vs, k, final, u, c.big)), Joined(vs, k, final, u), from, SizeTo(vs, k),
        final.id)
  {
    if k > 0 {
      var ops := JoinOps(vs, k - 1, final, u, c.big);
      JoinRuns(c, s, vs, k - 1, final, u, from, to);
      ExecNext(c, s, ops, JoinOp(vs, k, final, u, c.big));
      JoinLast(c, s, Exec(c, s, ops), vs, k, final, u, from, to);
    } else {
      RowAt(vs, from, to, k);
      ExecNothing(c, s, vs[0], from, final.id);
    }
  }

  lemma JoinLast(c: Machine, s: State, s0: State, vs: seq<Vn>, k: nat, final: Vn, u: nat, from: nat, to: nat)
    requires Row(vs, from, to) && 0 < k < |vs| && final.Temp? && final.id < u && final.size == to - from
    requires Holds(c, s, s0, Joined(vs, k - 1, final, u), from, SizeTo(vs, k - 1), final.id)
    ensures Holds(c, s, Do(c, s0, JoinOp(vs, k, final, u, c.big)), Joined(vs, k, final, u), from, SizeTo(vs, k),
        final.id)
  {
    JoinShape(vs, k, final, u, c.big, from, to);
    JoinMore(c, s, s0, JoinOp(vs, k, final, u, c.big), Joined(vs, k - 1, final, u), vs[k], Joined(vs, k, final, u),
        from, SizeTo(vs, k - 1), vs[k].size, final.id);
  }

  lemma ExecNothing(c: Machine, s: State, vn: Vn, from: nat, u: nat)
    requires vn.Mem? && vn.off == from
    ensures Holds(c, s, Exec(c, s, []), vn, from, vn.size, u)
  {
  }

  lemma JoinMore(c: Machine, s: State, s0: State, op: Op, pre: Vn, vn: Vn, out: Vn, from: nat, a: nat, b: nat, u: nat)
    requires op == if c.big then PieceOp(out, pre, vn) else PieceOp(out, vn, pre)
    requires Holds(c, s, s0, pre, from, a, u) && vn == Mem(from + a, b) && out.Temp? && u <= out.id && out.size == a + b
    ensures Holds(c, s, Do(c, s0, op), out, from, a + b, u)
  {
    JoinStep(c, s.mem, s0, op, pre, vn, out, from, a, b);
    TempAgrees(s, s0, out.id, ToNum(Span(s.mem, from, a + b, c.big)), u);
  }


  /** In numbers: a piece puts the high part above the low one, a subpiece shifts and truncates. */
  lemma PiecesAsNumbers(c: Machine, s: State, hi: Vn, lo: Vn, out: Vn, off: nat)
    ensures Value(c, s, PieceOp(out, hi, lo))
        == Read(c, s, lo) % Pow256(lo.size) + Pow256(lo.size) * (Read(c, s, hi) % Pow256(hi.size))
    ensures Value(c, s, SubpieceOp(out, hi, off)) == (Read(c, s, hi) / Pow256(off)) % Pow256(out.size)
  {
    NumJoin(ToBytes(Read(c, s, lo), lo.size), ToBytes(Read(c, s, hi), hi.size));
    NumOfBytes(Read(c, s, lo), lo.size);
    NumOfBytes(Read(c, s, hi), hi.size);
    MiddleIsShift(Read(c, s, hi), off, out.size);
  }

  // ----- splitting

  /** How many bytes of the whole lie below the piece. */
  function Below(vn: Vn, off: nat, size: nat, big: bool): int
    requires vn.Mem?
  {
    if big then off + size - (vn.off + vn.size) else vn.off - off
  }

  /** The pieces lie inside the whole. */
  predicate Splits(vs: seq<Vn>, off: nat, size: nat, big: bool) {
    forall i :: 0 <= i < |vs| ==> vs[i].Mem? && Below(vs[i], off, size, big) >= 0
  }

  function SplitOps(vs: seq<Vn>, k: nat, start: Vn, off: nat, size: nat, big: bool): seq<Op>
    requires k <= |vs| && Splits(vs, off, size, big)
  {
    if k == 0 then []
    else SplitOps(vs, k - 1, start, off, size, big) + [SubpieceOp(vs[k - 1], start, Below(vs[k - 1], off, size, big))]
  }

  /** split_pieces: the operations that take the pieces out of startvn. */
  method SplitPieces(vs: seq<Vn>, off: nat, size: nat, start: Vn, big: bool) returns (ops: seq<Op>)
    requires Splits(vs, off, size, big)
    ensures ops == SplitOps(vs, |vs|, start, off, size, big)
  {
    var baseoff := if big then off + size else off;
    ops := [];
    var i := 0;
    while i < |vs|
      invariant 0 <= i <= |vs| && ops == SplitOps(vs, i, start, off, size, big)
    {
      var vn := vs[i];
      var diff := if big then baseoff - (vn.off + vn.size) else vn.off - baseoff;
      ops := ops + [SubpieceOp(vn, start, diff)];
      i := i + 1;
    }
  }

  lemma RowBelow(vs: seq<Vn>, from: nat, to: nat, big: bool)
    requires Row(vs, from, to) && from <= to
    ensures Splits(vs, from, to - from, big)
  {
    forall i | 0 <= i < |vs| ensures Below(vs[i], from, to - from, big) >= 0 {
      RowAt(vs, from, to, i);
      SizeAtLeast(vs, i);
    }
  }

  lemma SizeAtLeast(vs: seq<Vn>, k: nat)
    requires k < |vs|
    ensures SizeTo(vs, k) >= vs[k].size
  {
  }

  /** Memory is that of m, but below `end` it holds what writing x from `from` on would put there. */
  ghost predicate PartWritten(m: nat -> Byte, m1: nat -> Byte, x: nat, from: nat, size: nat, end: nat, big: bool) {
    forall k: nat :: m1(k) == if from <= k < end then Digit(x, ByteIndex(from, size, big, k)) else m(k)
  }

  /** One piece: bytes `below` on of x are written to n bytes at `end`. */
  lemma SplitStep(c: Machine, m: nat -> Byte, s: State, vn: Vn, start: Vn, x: nat, from: nat, size: nat, end: nat,
      n: nat)
    requires PartWritten(m, s.mem, x, from, size, end, c.big) && from <= end && end + n <= from + size &&
        vn == Mem(end, n)
    requires start.Temp? && s.temps(start.id) == x
    ensures var s1 := Do(c, s, SubpieceOp(vn, start, Below(vn, from, size, c.big)));
      PartWritten(m, s1.mem, x, from, size, end + n, c.big) && s1.temps == s.temps
  {
    var d := Below(vn, from, size, c.big);
    var y := Middle(x, d, n);
    var s1 := Do(c, s, SubpieceOp(vn, start, d));
    assert s1.mem == WriteMem(s.mem, end, n, y, c.big);
    forall k: nat ensures s1.mem(k) == if from <= k < end + n then Digit(x, ByteIndex(from, size, c.big, k)) else m(k) {
      if end <= k < end + n {
        var i := ByteIndex(end, n, c.big, k);
        MiddleDigit(x, d, n, i);
        assert d + i == ByteIndex(from, size, c.big, k);
      }
    }
  }

  lemma MiddleDigit(x: nat, d: nat, n: nat, i: nat)
    requires i < n
    ensures Digit(Middle(x, d, n), i) == Digit(x, d + i)
  {
    MiddleBytes(x, d, n);
    DigitOf(Middle(x, d, n), n, i);
    DigitOf(x, d + n, d + i);
  }

  /** Where the first k pieces end. */
  function EndOf(vs: seq<Vn>, k: nat, from: nat): nat
    requires k <= |vs|
  {
    if k == 0 then from else from + SizeTo(vs, k - 1)
  }

  lemma EndAt(vs: seq<Vn>, from: nat, to: nat, k: nat)
    requires Row(vs, from, to) && 0 < k <= |vs|
    ensures vs[k - 1] == Mem(EndOf(vs, k - 1, from), vs[k - 1].size)
    ensures from <= EndOf(vs, k - 1, from) && EndOf(vs, k, from) == EndOf(vs, k - 1, from) + vs[k - 1].size <= to
  {
    RowAt(vs, from, to, k - 1);
  }

  lemma SplitLast(c: Machine, m: nat -> Byte, s: State, vs: seq<Vn>, k: nat, start: Vn, x: nat, from: nat, to: nat)
    requires Row(vs, from, to) && from <= to && 0 < k <= |vs| && start.Temp? && s.temps(start.id) == x &&
        Splits(vs, from, to - from, c.big)
    requires PartWritten(m, s.mem, x, from, to - from, EndOf(vs, k - 1, from), c.big)
    ensures var s1 := Do(c, s, SubpieceOp(vs[k - 1], start, Below(vs[k - 1], from, to - from, c.big)));
      s1.temps == s.temps && PartWritten(m, s1.mem, x, from, to - from, EndOf(vs, k, from), c.big)
  {
    EndAt(vs, from, to, k);
    SplitStep(c, m, s, vs[k - 1], start, x, from, to - from, EndOf(vs, k - 1, from), vs[k - 1].size);
  }

  lemma WrittenNothing(s: State, x: nat, from: nat, size: nat, big: bool)
    ensures PartWritten(s.mem, s.mem, x, from, size, from, big)
  {
  }

  /** After k pieces, memory is as after writing x, up to the end of the last of them. */
  lemma {:induction false} SplitRuns(c: Machine, s: State, vs: seq<Vn>, k: nat, start: Vn, x: nat, from: nat, to: nat)
    requires Row(vs, from, to) && from <= to && k <= |vs| && start.Temp? && s.temps(start.id) == x
    requires Splits(vs, from, to - from, c.big)
    ensures var s1 := Exec(c, s, SplitOps(vs, k, start, from, to - from, c.big));
      s1.temps == s.temps && PartWritten(s.mem, s1.mem, x, from, to - from, EndOf(vs, k, from), c.big)
  {
    if k > 0 {
      var ops := SplitOps(vs, k - 1, start, from, to - from, c.big);
      SplitRuns(c, s, vs, k - 1, start, x, from, to);
      ExecNext(c, s, ops, SubpieceOp(vs[k - 1], start, Below(vs[k - 1], from, to - from, c.big)));
      SplitLast(c, s.mem, Exec(c, s, ops), vs, k, start, x, from, to);
    } else {
      WrittenNothing(s, x, from, to - from, c.big);
    }
  }

  // ----- the two rewrites

  /** Another operation with one input, or with its output, replaced. */
  function WithIn(op: Op, slot: nat, vn: Vn): Op
    requires slot < |op.ins|
  {
    op.(ins := op.ins[slot := vn])
  }

  function WithOut(op: Op, vn: Vn): Op {
    op.(out := vn)
  }

  /** Reading a varnode piece by piece. */
  lemma ReadRefined(c: Machine, s: State, op: Op, slot: nat, vs: seq<Vn>, u: nat)
    requires slot < |op.ins| && op.ins[slot].Mem? && OldOp(op, u)
    requires |vs| > 1 && Row(vs, op.ins[slot].off, op.ins[slot].off + op.ins[slot].size)
    ensures var final := Temp(u, op.ins[slot].size);
        var ops := JoinOps(vs, |vs| - 1, final, u + 1, c.big) + [WithIn(op, slot, final)];
      Agree(Do(c, s, op), Exec(c, s, ops), u)
  {
    var vn := op.ins[slot];
    var final := Temp(u, vn.size);
    var join := JoinOps(vs, |vs| - 1, final, u + 1, c.big);
    JoinedReads(c, s, vs, vn, final, u, u + 1);
    ExecNext(c, s, join, WithIn(op, slot, final));
    ReplacedInput(c, s, Exec(c, s, join), op, slot, final, u);
  }

  /** The joined pieces hold what the varnode holds. */
  lemma JoinedReads(c: Machine, s: State, vs: seq<Vn>, vn: Vn, final: Vn, u: nat, u1: nat)
    requires vn.Mem? && |vs| > 1 && Row(vs, vn.off, vn.off + vn.size) && final == Temp(u, vn.size) && u1 == u + 1
    ensures var s1 := Exec(c, s, JoinOps(vs, |vs| - 1, final, u1, c.big));
        Agree(s, s1, u) && Read(c, s1, final) == Read(c, s, vn)
  {
    JoinRuns(c, s, vs, |vs| - 1, final, u1, vn.off, vn.off + vn.size);
    RowAt(vs, vn.off, vn.off + vn.size, |vs| - 1);
  }

  /** An input may be replaced by another varnode with the same value and size. */
  lemma ReplacedInput(c: Machine, s: State, s1: State, op: Op, slot: nat, vn: Vn, u: nat)
    requires slot < |op.ins| && OldOp(op, u) && Agree(s, s1, u) && vn.size == op.ins[slot].size &&
        Read(c, s1, vn) == Read(c, s, op.ins[slot])
    ensures Agree(Do(c, s, op), Do(c, s1, WithIn(op, slot, vn)), u)
  {
    var op1 := WithIn(op, slot, vn);
    forall i | 0 <= i < |op.ins| ensures Read(c, s1, op1.ins[i]) == Read(c, s, op.ins[i]) {
      if i != slot { ReadSame(c, s, s1, op.ins[i], u); }
    }
    assert ReadAll(c, s1, op1.ins) == ReadAll(c, s, op.ins);
    WriteSame(c, s, s1, op.out, Value(c, s, op), u);
  }

  lemma WriteSame(c: Machine, s: State, s1: State, out: Vn, x: nat, u: nat)
    requires Agree(s, s1, u)
    ensures Agree(Write(c, s, out, x), Write(c, s1, out, x), u)
  {
  }

  /** Writing a varnode piece by piece. */
  lemma WriteRefined(c: Machine, s: State, op: Op, vs: seq<Vn>, u: nat)
    requires op.out.Mem? && Row(vs, op.out.off, op.out.off + op.out.size) && vs != []
    requires Splits(vs, op.out.off, op.out.size, c.big)
    ensures var t := Temp(u, op.out.size);
      Agree(Do(c, s, op), Exec(c, s, [WithOut(op, t)] + SplitOps(vs, |vs|, t, op.out.off, op.out.size, c.big)), u)
  {
    var vn, t := op.out, Temp(u, op.out.size);
    var x, from, to := Value(c, s, op), vn.off, vn.off + vn.size;
    var y := ToNum(ToBytes(x, vn.size));
    var s0 := Exec(c, s, [WithOut(op, t)]);
    assert [] + [WithOut(op, t)] == [WithOut(op, t)];
    ExecNext(c, s, [], WithOut(op, t));
    assert s0 == s.(temps := WriteTemp(s.temps, u, y));
    ExecParts(c, s, [WithOut(op, t)], SplitOps(vs, |vs|, t, from, vn.size, c.big));
    SplitRuns(c, s0, vs, |vs|, t, y, from, to);
    RowAt(vs, from, to, |vs| - 1);
    WholeWritten(c, s, Exec(c, s0, SplitOps(vs, |vs|, t, from, vn.size, c.big)), vn, x, y, u);
  }

  lemma WholeWritten(c: Machine, s: State, s1: State, vn: Vn, x: nat, y: nat, u: nat)
    requires vn.Mem? && y == ToNum(ToBytes(x, vn.size)) && s1.temps == WriteTemp(s.temps, u, y)
    requires PartWritten(s.mem, s1.mem, y, vn.off, vn.size, vn.off + vn.size, c.big)
    ensures Agree(Write(c, s, vn, x), s1, u)
  {
    forall k: nat ensures s1.mem(k) == Write(c, s, vn, x).mem(k) {
      if vn.off <= k < vn.off + vn.size { LowDigit(x, vn.size, ByteIndex(vn.off, vn.size, c.big, k)); }
    }
  }

  lemma LowDigit(x: nat, n: nat, i: nat)
    requires i < n
    ensures Digit(ToNum(ToBytes(x, n)), i) == Digit(x, i)
  {
    BytesOfNum(ToBytes(x, n));
    DigitOf(ToNum(ToBytes(x, n)), n, i);
    DigitOf(x, n, i);
  }

  /** Operations in the middle may be exchanged for others that leave the same state but for
      new temporaries. */
  lemma MiddleReplaced(c: Machine, s: State, a: seq<Op>, old1: seq<Op>, new1: seq<Op>, b: seq<Op>, u: nat)
    requires Agree(Exec(c, Exec(c, s, a), old1), Exec(c, Exec(c, s, a), new1), u) && OldOps(b, u)
    ensures Agree(Exec(c, s, a + old1 + b), Exec(c, s, a + new1 + b), u)
  {
    ExecParts(c, s, a + old1, b);
    ExecParts(c, s, a, old1);
    ExecParts(c, s, a + new1, b);
    ExecParts(c, s, a, new1);
    ExecSame(c, Exec(c, Exec(c, s, a), old1), Exec(c, Exec(c, s, a), new1), b, u);
  }

  /** The new code does to memory and to the old temporaries what the old code did. */
  ghost predicate SameMeaning(c: Machine, a: seq<Op>, b: seq<Op>, u: nat) {
    forall s :: Agree(Exec(c, s, a), Exec(c, s, b), u)
  }

  /** One operation may be exchanged for others that do to every state what it does. */
  lemma OneReplaced(c: Machine, ops: seq<Op>, pos: nat, new1: seq<Op>, u: nat)
    requires pos < |ops| && OldOps(ops, u) && forall s :: Agree(Do(c, s, ops[pos]), Exec(c, s, new1), u)
    ensures SameMeaning(c, ops, ops[..pos] + new1 + ops[pos + 1..], u)
  {
    var op := ops[pos];
    assert ops[..pos] + [op] + ops[pos + 1..] == ops;
    assert [] + [op] == [op];
    forall s ensures Agree(Exec(c, s, ops), Exec(c, s, ops[..pos] + new1 + ops[pos + 1..]), u) {
      ExecNext(c, Exec(c, s, ops[..pos]), [], op);
      MiddleReplaced(c, s, ops[..pos], [op], new1, ops[pos + 1..], u);
    }
  }

  lemma ReadKeeps(c: Machine, ops: seq<Op>, pos: nat, slot: nat, vs: seq<Vn>, u: nat)
    requires pos < |ops| && OldOps(ops, u) && slot < |ops[pos].ins| && ops[pos].ins[slot].Mem?
    requires var vn := ops[pos].ins[slot]; |vs| > 1 && Row(vs, vn.off, vn.off + vn.size)
    ensures SameMeaning(c, ops, ReadCode(ops, pos, slot, vs, u, c.big), u)
  {
    var final := Temp(u, ops[pos].ins[slot].size);
    var new1 := JoinOps(vs, |vs| - 1, final, u + 1, c.big) + [WithIn(ops[pos], slot, final)];
    forall s ensures Agree(Do(c, s, ops[pos]), Exec(c, s, new1), u) { ReadRefined(c, s, ops[pos], slot, vs, u); }
    OneReplaced(c, ops, pos, new1, u);
  }

  function ReadCode(ops: seq<Op>, pos: nat, slot: nat, vs: seq<Vn>, u: nat, big: bool): seq<Op>
    requires pos < |ops| && slot < |ops[pos].ins| && |vs| > 1
  {
    var final := Temp(u, ops[pos].ins[slot].size);
    ops[..pos] + (JoinOps(vs, |vs| - 1, final, u + 1, big) + [WithIn(ops[pos], slot, final)]) + ops[pos + 1..]
  }

  function WriteCode(ops: seq<Op>, pos: nat, vs: seq<Vn>, u: nat, big: bool): seq<Op>
    requires pos < |ops| && ops[pos].out.Mem?
    requires Splits(vs, ops[pos].out.off, ops[pos].out.size, big)
  {
    var t := Temp(u, ops[pos].out.size);
    ops[..pos]
    + ([WithOut(ops[pos], t)] + SplitOps(vs, |vs|, t, ops[pos].out.off, ops[pos].out.size, big))
    + ops[pos + 1..]
  }

  lemma WriteKeeps(c: Machine, ops: seq<Op>, pos: nat, vs: seq<Vn>, u: nat)
    requires pos < |ops| && OldOps(ops, u) && ops[pos].out.Mem?
    requires var vn := ops[pos].out; vs != [] && Row(vs, vn.off, vn.off + vn.size) && Splits(vs, vn.off, vn.size, c.big)
    ensures SameMeaning(c, ops, WriteCode(ops, pos, vs, u, c.big), u)
  {
    var t := Temp(u, ops[pos].out.size);
    var new1 := [WithOut(ops[pos], t)] + SplitOps(vs, |vs|, t, ops[pos].out.off, ops[pos].out.size, c.big);
    forall s ensures Agree(Do(c, s, ops[pos]), Exec(c, s, new1), u) { WriteRefined(c, s, ops[pos], vs, u); }
    OneReplaced(c, ops, pos, new1, u);
  }

  /** The new code uses temporaries below the new bound only. */
  lemma {:induction false} JoinOpsOld(vs: seq<Vn>, k: nat, final: Vn, u: nat, big: bool)
    requires (forall i :: 0 <= i < |vs| ==> vs[i].Mem?) && k < |vs| && |vs| > 1 && Old(final, u)
    ensures OldOps(JoinOps(vs, k, final, u, big), u + |vs| - 2)
  {
    if k > 0 { JoinOpsOld(vs, k - 1, final, u, big); }
  }

  lemma {:induction false} SplitOpsOld(vs: seq<Vn>, k: nat, start: Vn, off: nat, size: nat, big: bool, u: nat)
    requires k <= |vs| && Splits(vs, off, size, big) && Old(start, u)
    ensures OldOps(SplitOps(vs, k, start, off, size, big), u)
  {
    if k > 0 { SplitOpsOld(vs, k - 1, start, off, size, big, u); }
  }

  lemma OldParts(ops: seq<Op>, pos: nat, more: seq<Op>, u: nat, n: nat)
    requires pos < |ops| && OldOps(ops, u) && OldOps(more, n) && u <= n
    ensures OldOps(ops[..pos] + more + ops[pos + 1..], n)
  {
  }

  lemma ReadCodeOld(ops: seq<Op>, pos: nat, slot: nat, vs: seq<Vn>, u: nat, big: bool, n: nat)
    requires pos < |ops| && slot < |ops[pos].ins| && |vs| > 1 && OldOps(ops, u) && n == u + |vs| - 1
    requires forall i :: 0 <= i < |vs| ==> vs[i].Mem?
    ensures OldOps(ReadCode(ops, pos, slot, vs, u, big), n)
  {
    var final := Temp(u, ops[pos].ins[slot].size);
    JoinOpsOld(vs, |vs| - 1, final, u + 1, big);
    OldParts(ops, pos, JoinOps(vs, |vs| - 1, final, u + 1, big) + [WithIn(ops[pos], slot, final)], u, n);
  }

  lemma WriteCodeOld(ops: seq<Op>, pos: nat, vs: seq<Vn>, u: nat, big: bool, n: nat)
    requires pos < |ops| && ops[pos].out.Mem? && OldOps(ops, u) &&
        Splits(vs, ops[pos].out.off, ops[pos].out.size, big) && n == u + 1
    ensures OldOps(WriteCode(ops, pos, vs, u, big), n)
  {
    var t := Temp(u, ops[pos].out.size);
    SplitOpsOld(vs, |vs|, t, ops[pos].out.off, ops[pos].out.size, big, n);
    OldParts(ops, pos, [WithOut(ops[pos], t)] + SplitOps(vs, |vs|, t, ops[pos].out.off, ops[pos].out.size, big), u, n);
  }

  lemma MeaningSelf(c: Machine, a: seq<Op>, u: nat)
    ensures SameMeaning(c, a, a, u)
  {
  }

  /** Rewrites add up. */
  lemma MeaningAdds(c: Machine, a: seq<Op>, b: seq<Op>, d: seq<Op>, u: nat, u1: nat)
    requires SameMeaning(c, a, b, u) && SameMeaning(c, b, d, u1) && u <= u1
    ensures SameMeaning(c, a, d, u)
  {
    forall s ensures Agree(Exec(c, s, a), Exec(c, s, d), u) {
      assert Agree(Exec(c, s, a), Exec(c, s, b), u) && Agree(Exec(c, s, b), Exec(c, s, d), u1);
    }
  }

  /** Splitting a value and joining its pieces again gives the value, in both byte orders. */
  lemma SplitThenJoin(c: Machine, s: State, vs: seq<Vn>, start: Vn, x: nat, final: Vn, u: nat, from: nat, to: nat)
    requires Row(vs, from, to) && from <= to && vs != [] && Splits(vs, from, to - from, c.big)
    requires start.Temp? && s.temps(start.id) == x < Pow256(to - from)
    requires final.Temp? && final.id < u && final.size == to - from
    ensures var s1 := Exec(c, s, SplitOps(vs, |vs|, start, from, to - from, c.big));
      Read(c, Exec(c, s1, JoinOps(vs, |vs| - 1, final, u, c.big)), Joined(vs, |vs| - 1, final, u)) == x
  {
    SplitSpan(c, s, vs, start, x, from, to);
    JoinReads(c, Exec(c, s, SplitOps(vs, |vs|, start, from, to - from, c.big)), vs, final, u, from, to);
  }

  lemma SplitSpan(c: Machine, s: State, vs: seq<Vn>, start: Vn, x: nat, from: nat, to: nat)
    requires Row(vs, from, to) && from <= to && vs != [] && Splits(vs, from, to - from, c.big)
    requires start.Temp? && s.temps(start.id) == x < Pow256(to - from)
    ensures ToNum(Span(Exec(c, s, SplitOps(vs, |vs|, start, from, to - from, c.big)).mem, from, SizeTo(vs, |vs| - 1),
        c.big)) == x
  {
    SplitRuns(c, s, vs, |vs|, start, x, from, to);
    WholeSpan(s.mem, Exec(c, s, SplitOps(vs, |vs|, start, from, to - from, c.big)).mem, vs, x, from, to, c.big);
  }

  lemma JoinReads(c: Machine, s: State, vs: seq<Vn>, final: Vn, u: nat, from: nat, to: nat)
    requires Row(vs, from, to) && vs != [] && final.Temp? && final.id < u && final.size == to - from
    ensures Read(c, Exec(c, s, JoinOps(vs, |vs| - 1, final, u, c.big)),
        Joined(vs, |vs| - 1, final, u)) == ToNum(Span(s.mem, from, SizeTo(vs, |vs| - 1), c.big))
  {
    JoinRuns(c, s, vs, |vs| - 1, final, u, from, to);
  }

  lemma WholeSpan(m: nat -> Byte, m1: nat -> Byte, vs: seq<Vn>, x: nat, from: nat, to: nat, big: bool)
    requires Row(vs, from, to) && from <= to && vs != [] && x < Pow256(to - from)
    requires PartWritten(m, m1, x, from, to - from, EndOf(vs, |vs|, from), big)
    ensures ToNum(Span(m1, from, SizeTo(vs, |vs| - 1), big)) == x
  {
    RowAt(vs, from, to, |vs| - 1);
    SpanWritten(m, m1, x, from, to - from, big);
    SmallNum(x, to - from);
  }

  lemma SpanWritten(m: nat -> Byte, m1: nat -> Byte, x: nat, off: nat, n: nat, big: bool)
    requires PartWritten(m, m1, x, off, n, off + n, big)
    ensures Span(m1, off, n, big) == ToBytes(x, n)
  {
    forall i | 0 <= i < n ensures Span(m1, off, n, big)[i] == ToBytes(x, n)[i] {
      SpanAt(m1, off, n, big, i);
      DigitOf(x, n, i);
    }
  }

  lemma {:induction false} SpanAt(m: nat -> Byte, off: nat, n: nat, big: bool, i: nat)
    requires i < n
    ensures Span(m, off, n, big)[i] == m(if big then off + n - 1 - i else off + i)
    decreases n
  {
    if i > 0 { if big { SpanAt(m, off, n - 1, big, i - 1); } else { SpanAt(m, off + 1, n - 1, big, i - 1); } }
  }

  lemma ReadDone(c: Machine, ops: seq<Op>, pos: nat, slot: nat, vs: seq<Vn>, u: nat, n: nat)
    requires pos < |ops| && OldOps(ops, u) && slot < |ops[pos].ins| && ops[pos].ins[slot].Mem? && n == u + |vs| - 1
    requires var vn := ops[pos].ins[slot]; |vs| > 1 && Row(vs, vn.off, vn.off + vn.size)
    ensures SameMeaning(c, ops, ReadCode(ops, pos, slot, vs, u, c.big), u) &&
        OldOps(ReadCode(ops, pos, slot, vs, u, c.big), n)
  {
    ReadKeeps(c, ops, pos, slot, vs, u);
    ReadCodeOld(ops, pos, slot, vs, u, c.big, n);
  }

  lemma WriteDone(c: Machine, ops: seq<Op>, pos: nat, vs: seq<Vn>, u: nat, n: nat)
    requires pos < |ops| && OldOps(ops, u) && ops[pos].out.Mem? && n == u + 1
    requires var vn := ops[pos].out; vs != [] && Row(vs, vn.off, vn.off + vn.size) && Splits(vs, vn.off, vn.size, c.big)
    ensures SameMeaning(c, ops, WriteCode(ops, pos, vs, u, c.big), u) && OldOps(WriteCode(ops, pos, vs, u, c.big), n)
  {
    WriteKeeps(c, ops, pos, vs, u);
    WriteCodeOld(ops, pos, vs, u, c.big, n);
  }

  /** The varnode lies inside the range, and both its ends are cuts. */
  ghost predicate Refinable(vn: Vn, addr: nat, refine: seq<nat>, C: set<nat>, size: nat) {
    && |refine| == size + 1 && Tiled(C, size, size, refine) && Inside(vn, addr, size)
    && vn.off - addr in C && (vn.off + vn.size == addr + size || vn.off + vn.size - addr in C)
  }

  /** All varnodes for which the pieces were measured can be refined. */
  lemma MeasuredRefinable(vns: seq<Vn>, i: nat, addr: nat, refine: seq<nat>, size: nat)
    requires AllInside(vns, addr, size) && i < |vns| && |refine| == size + 1 &&
        Tiled(Cuts(vns, addr, size), size, size, refine)
    ensures Refinable(vns[i], addr, refine, Cuts(vns, addr, size), size)
  {
    var vn := vns[i];
    assert Marked(vns, addr, vn.off - addr) && Marked(vns, addr, vn.off + vn.size - addr);
  }
}
