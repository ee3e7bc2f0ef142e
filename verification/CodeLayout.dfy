/** Laying out the blocks of a function as Thumb code: where each block starts,
    which jumps are left out, and what the back-patched code does. */
module CodeLayout {
  import opened Bits
  import opened ThumbBranch

  /** How control leaves a block; targets are positions in the list of blocks. */
  datatype Tail = Exit | Goto(succ: nat) | Branch(cond: nat, onTrue: nat, onFalse: nat)

  /** body: the code up to the conditional branch.  pool: data that the body loads
      and that has to follow the block. */
  datatype CodeBlock = CodeBlock(body: seq<Byte>, tail: Tail, pool: seq<Byte>) {
    /** Where the block goes when its conditional branch, if any, is not taken. */
    function Next(): nat requires !tail.Exit? { if tail.Goto? then tail.succ else tail.onFalse }

    function CondSize(): nat { if tail.Branch? then 4 else 0 }
  }

  type Code = seq<CodeBlock>

  ghost predicate WellFormed(code: Code) {
    forall k :: 0 <= k < |code| ==> BlockWellFormed(code, k)
  }

  ghost predicate BlockWellFormed(code: Code, k: nat)
    requires k < |code|
  {
    var b := code[k];
    && |b.body| % 2 == 0 && |b.pool| % 2 == 0
    && (b.tail.Goto? ==> b.tail.succ < |code|)
    && (b.tail.Branch? ==> b.tail.cond < COND_AL && b.tail.onTrue < |code| && b.tail.onFalse < |code|)
  }

  /** Does block k need a jump at its end? */
  predicate AddJmp(code: Code, k: nat)
    requires k < |code|
  {
    !code[k].tail.Exit? && (k + 1 == |code| || code[k].Next() != k + 1 || code[k].pool != [])
  }

  function Size(code: Code, k: nat): nat
    requires k < |code|
  {
    var b := code[k];
    |b.body| + b.CondSize() + (if AddJmp(code, k) then 4 else 0) + (if b.tail.Exit? then 0 else |b.pool|)
  }

  function Start(code: Code, base: nat, k: nat): nat
    requires k <= |code|
  {
    if k == 0 then base else Start(code, base, k - 1) + Size(code, k - 1)
  }

  /** The address of block k's conditional branch. */
  function CondPos(code: Code, base: nat, k: nat): nat
    requires k < |code|
  {
    Start(code, base, k) + |code[k].body|
  }

  /** The address of block k's final jump. */
  function JumpPos(code: Code, base: nat, k: nat): nat
    requires k < |code|
  {
    CondPos(code, base, k) + code[k].CondSize()
  }

  lemma {:induction false} StartMonotone(code: Code, base: nat, j: nat, k: nat)
    requires j <= k <= |code|
    ensures Start(code, base, j) <= Start(code, base, k)
    decreases k - j
  {
    if j < k { StartMonotone(code, base, j, k - 1); }
  }

  lemma {:induction false} StartEven(code: Code, base: nat, k: nat)
    requires WellFormed(code) && base % 2 == 0 && k <= |code|
    ensures Start(code, base, k) % 2 == 0
  {
    if k > 0 {
      StartEven(code, base, k - 1);
      assert BlockWellFormed(code, k - 1);
    }
  }

  lemma JumpsEven(code: Code, base: nat, k: nat, t: nat)
    requires WellFormed(code) && base % 2 == 0 && k < |code| && t <= |code|
    ensures EvenApart(CondPos(code, base, k), Start(code, base, t))
    ensures EvenApart(JumpPos(code, base, k), Start(code, base, t))
  {
    StartEven(code, base, k);
    StartEven(code, base, t);
    assert BlockWellFormed(code, k);
    EvenDifference(Start(code, base, t), Start(code, base, k), |code[k].body|);
  }

  lemma EvenDifference(t: int, s: int, n: int)
    requires t % 2 == 0 && s % 2 == 0 && n % 2 == 0
    ensures (t - (s + n)) % 2 == 0 && (t - (s + n + 4)) % 2 == 0
  {
  }

  // ----- words in memory

  /** The order in which write_thumb2 stores the bytes of an instruction word. */
  function Bytes(w: nat): (r: seq<Byte>)
    requires w < 0x1_0000_0000
    ensures |r| == 4
  {
    ByteOf(w, 16, Pow2(16));
    ByteOf(w, 24, Pow2(24));
    ByteOf(w, 0, Pow2(0));
    ByteOf(w, 8, Pow2(8));
    [And(Shr(w, 16), 255), And(Shr(w, 24), 255), And(w, 255), And(Shr(w, 8), 255)]
  }

  lemma ByteOf(w: nat, l: nat, p: nat)
    requires p == Pow2(l)
    ensures And(Shr(w, l), 255) == (w / p) % 256
  {
    assert Pow2(8) == 256;
    AndMask(Shr(w, l), 0, 8);
    ShrDiv(w, l);
  }

  /** read_thumb2 */
  function ReadWord(mem: seq<Byte>, pos: nat): nat
    requires pos + 4 <= |mem|
  {
    Or(Or(Or(Shl(mem[pos], 16), Shl(mem[pos + 1], 24)), mem[pos + 2]), Shl(mem[pos + 3], 8))
  }

  /** A word from its bytes, in the order of Bytes. */
  function WordOf(a: nat, b: nat, c: nat, d: nat): nat {
    a * 0x10000 + b * 0x1000000 + c + d * 0x100
  }

  lemma ReadWordSum(mem: seq<Byte>, pos: nat)
    requires pos + 4 <= |mem|
    ensures ReadWord(mem, pos) == WordOf(mem[pos], mem[pos + 1], mem[pos + 2], mem[pos + 3])
  {
    var a: nat, b: nat, c: nat, d: nat := mem[pos], mem[pos + 1], mem[pos + 2], mem[pos + 3];
    SumBytes(Shl(a, 16), Shl(b, 24), Shl(d, 8), a, b, c, d);
  }

  lemma SumBytes(x: nat, y: nat, z: nat, a: nat, b: nat, c: nat, d: nat)
    requires a < 256 && b < 256 && c < 256 && d < 256
    requires x == Shl(a, 16) && y == Shl(b, 24) && z == Shl(d, 8)
    ensures Or(Or(Or(x, y), c), z) == WordOf(a, b, c, d)
  {
    SecondByte(x, y, a, b);
    ThirdByte(Or(x, y), c, a * 0x100 + b * 0x10000);
    FourthByte(Or(Or(x, y), c), z, d, a + b * 0x100, c);
  }

  lemma SecondByte(x: nat, y: nat, a: nat, b: nat)
    requires a < 256 && b < 256 && x == Shl(a, 16) && y == Shl(b, 24)
    ensures Or(x, y) == a * 0x10000 + b * 0x1000000
  {
    Powers();
    MorePowers();
    ShlMul(a, 16);
    OrField(x, b, 24, 8, 0x1000000, 256, 0, a * 0x10000);
  }

  lemma ThirdByte(x: nat, c: nat, hi: nat)
    requires c < 256 && x == 256 * hi
    ensures Or(x, c) == x + c
  {
    Powers();
    MorePowers();
    OrField(x, c, 0, 8, 1, 256, hi, 0);
  }

  lemma FourthByte(x: nat, z: nat, d: nat, hi: nat, lo: nat)
    requires d < 256 && lo < 256 && z == Shl(d, 8) && x == 0x10000 * hi + lo
    ensures Or(x, z) == x + d * 0x100
  {
    Powers();
    MorePowers();
    OrField(x, d, 8, 8, 0x100, 256, hi, lo);
  }

  /** Memory after writing word w at pos. */
  function Put(mem: seq<Byte>, pos: nat, w: nat): (r: seq<Byte>)
    requires pos + 4 <= |mem| && w < 0x1_0000_0000
    ensures |r| == |mem|
  {
    mem[..pos] + Bytes(w) + mem[pos + 4..]
  }

  lemma ReadPut(mem: seq<Byte>, pos: nat, w: nat)
    requires pos + 4 <= |mem| && w < 0x1_0000_0000
    ensures ReadWord(Put(mem, pos, w), pos) == w
  {
    var m, bs := Put(mem, pos, w), Bytes(w);
    assert m[pos] == bs[0] && m[pos + 1] == bs[1] && m[pos + 2] == bs[2] && m[pos + 3] == bs[3];
    ReadWordSum(m, pos);
    Rejoin(w);
  }

  lemma Rejoin(w: nat)
    requires w < 0x1_0000_0000
    ensures WordOf(Bytes(w)[0], Bytes(w)[1], Bytes(w)[2], Bytes(w)[3]) == w
  {
    Powers();
    assert Pow2(24) == 0x1000000 && Pow2(8) == 0x100 && Pow2(0) == 1;
    ByteOf(w, 16, 0x10000);
    ByteOf(w, 24, 0x1000000);
    ByteOf(w, 0, 1);
    ByteOf(w, 8, 0x100);
    RejoinBytes(w, Bytes(w)[0], Bytes(w)[1], Bytes(w)[2], Bytes(w)[3]);
  }

  lemma RejoinBytes(w: nat, a: nat, b: nat, c: nat, d: nat)
    requires w < 0x1_0000_0000
    requires a == (w / 0x10000) % 256 && b == (w / 0x1000000) % 256 && c == w % 256 && d == (w / 0x100) % 256
    ensures WordOf(a, b, c, d) == w
  {
    var x := w / 0x100;
    var y := x / 0x100;
    assert w / 0x10000 == y && w / 0x1000000 == y / 0x100;
  }

  ghost predicate SameBytes(mem: seq<Byte>, mem': seq<Byte>, s: nat, e: nat)
    requires e <= |mem| && e <= |mem'|
  {
    forall i :: s <= i < e ==> mem[i] == mem'[i]
  }

  lemma SameSlice(mem: seq<Byte>, mem': seq<Byte>, s: nat, e: nat, lo: nat, hi: nat)
    requires e <= |mem| && e <= |mem'| && SameBytes(mem, mem', s, e) && s <= lo <= hi <= e
    ensures mem[lo..hi] == mem'[lo..hi]
  {
  }

  lemma ReadSame(mem: seq<Byte>, mem': seq<Byte>, s: nat, e: nat, pos: nat)
    requires e <= |mem| && e <= |mem'| && SameBytes(mem, mem', s, e) && s <= pos && pos + 4 <= e
    ensures ReadWord(mem', pos) == ReadWord(mem, pos)
  {
  }

  lemma PutSame(mem: seq<Byte>, pos: nat, w: nat)
    requires pos + 4 <= |mem| && w < 0x1_0000_0000
    ensures SameBytes(mem, Put(mem, pos, w), 0, pos) && SameBytes(mem, Put(mem, pos, w), pos + 4, |mem|)
  {
  }

  // ----- what the memory holds while jumps are still to be fixed

  /** A jump to be fixed once its target is placed.  cond is 0 for every conditional branch. */
  datatype FixItem = FixItem(from: nat, to: nat, cond: nat)

  /** The word at pos is the conditional branch to block t, or one with the same
      condition that is still to be fixed. */
  ghost predicate CondHas(code: Code, base: nat, mem: seq<Byte>, pos: nat, cond: nat, t: nat, pend: seq<FixItem>)
    requires pos + 4 <= |mem| && t <= |code|
  {
    var target := Start(code, base, t);
    || (Fits(pos, target) && ReadWord(mem, pos) == CondWord(cond, pos, target))
    || (Field(ReadWord(mem, pos), 22, 4) == cond && FixItem(pos, t, 0) in pend)
  }

  ghost predicate JumpHas(code: Code, base: nat, mem: seq<Byte>, pos: nat, t: nat, pend: seq<FixItem>)
    requires pos + 4 <= |mem| && t <= |code|
  {
    ReadWord(mem, pos) == JumpWord(pos, Start(code, base, t)) || FixItem(pos, t, COND_AL) in pend
  }

  /** The memory holds block k, but for the jumps that are still to be fixed. */
  ghost predicate BlockHas(code: Code, base: nat, mem: seq<Byte>, k: nat, pend: seq<FixItem>)
    requires k < |code| && BlockWellFormed(code, k) && Start(code, base, k) + Size(code, k) <= |mem|
  {
    var b := code[k];
    && mem[Start(code, base, k)..CondPos(code, base, k)] == b.body
    && (b.tail.Branch? ==> CondHas(code, base, mem, CondPos(code, base, k), b.tail.cond, b.tail.onTrue, pend))
    && (AddJmp(code, k) ==> JumpHas(code, base, mem, JumpPos(code, base, k), b.Next(), pend))
    && (!b.tail.Exit? ==>
          mem[Start(code, base, k) + Size(code, k) - |b.pool|..Start(code, base, k) + Size(code, k)] == b.pool)
  }

  /** The item stands for a jump of block k. */
  ghost predicate ItemOf(code: Code, base: nat, item: FixItem, k: nat)
    requires k < |code|
  {
    var b := code[k];
    || (b.tail.Branch? && item == FixItem(CondPos(code, base, k), b.tail.onTrue, 0))
    || (AddJmp(code, k) && item == FixItem(JumpPos(code, base, k), b.Next(), COND_AL))
  }

  ghost predicate ItemKnown(code: Code, base: nat, item: FixItem, n: nat)
    requires n <= |code|
  {
    exists k :: 0 <= k < n && ItemOf(code, base, item, k)
  }

  /** The first n blocks are in memory, but for the jumps in pend. */
  ghost predicate LaidOut(code: Code, base: nat, mem: seq<Byte>, n: nat, pend: seq<FixItem>)
    requires n <= |code|
  {
    && WellFormed(code) && Start(code, base, n) <= |mem|
    && (forall k :: 0 <= k < n ==> Holds(code, base, mem, k, pend))
    && (forall i :: 0 <= i < |pend| ==> ItemKnown(code, base, pend[i], n))
  }

  ghost predicate Holds(code: Code, base: nat, mem: seq<Byte>, k: nat, pend: seq<FixItem>)
    requires k < |code|
  {
    && BlockWellFormed(code, k) && Start(code, base, k) + Size(code, k) <= |mem|
    && BlockHas(code, base, mem, k, pend)
  }

  /** What block k looks like depends on its own bytes only, and more jumps may become pending. */
  lemma HoldsFrame(code: Code, base: nat, mem: seq<Byte>, mem': seq<Byte>, k: nat, pend: seq<FixItem>,
      pend': seq<FixItem>)
    requires k < |code| && Holds(code, base, mem, k, pend)
    requires var s := Start(code, base, k); var e := s + Size(code, k); e <= |mem'| && SameBytes(mem, mem', s, e)
    requires forall item :: item in pend && ItemOf(code, base, item, k) ==> item in pend'
    ensures Holds(code, base, mem', k, pend')
  {
    var b, s := code[k], Start(code, base, k);
    var e := s + Size(code, k);
    SameSlice(mem, mem', s, e, s, s + |b.body|);
    if b.tail.Branch? { CondFrame(code, base, mem, mem', k, s, e, pend, pend'); }
    if AddJmp(code, k) { JumpFrame(code, base, mem, mem', k, s, e, pend, pend'); }
    if !b.tail.Exit? { SameSlice(mem, mem', s, e, e - |b.pool|, e); }
  }

  lemma CondFrame(code: Code, base: nat, mem: seq<Byte>, mem': seq<Byte>, k: nat, s: nat, e: nat, pend: seq<FixItem>,
      pend': seq<FixItem>)
    requires k < |code| && code[k].tail.Branch? && code[k].tail.onTrue <= |code|
    requires s == Start(code, base, k) && e == s + Size(code, k) && e <= |mem| && e <= |mem'| &&
        SameBytes(mem, mem', s, e)
    requires CondHas(code, base, mem, CondPos(code, base, k), code[k].tail.cond, code[k].tail.onTrue, pend)
    requires forall item :: item in pend && ItemOf(code, base, item, k) ==> item in pend'
    ensures CondHas(code, base, mem', CondPos(code, base, k), code[k].tail.cond, code[k].tail.onTrue, pend')
  {
    ReadSame(mem, mem', s, e, CondPos(code, base, k));
    assert ItemOf(code, base, FixItem(CondPos(code, base, k), code[k].tail.onTrue, 0), k);
  }

  lemma JumpFrame(code: Code, base: nat, mem: seq<Byte>, mem': seq<Byte>, k: nat, s: nat, e: nat, pend: seq<FixItem>,
      pend': seq<FixItem>)
    requires k < |code| && AddJmp(code, k) && code[k].Next() <= |code|
    requires s == Start(code, base, k) && e == s + Size(code, k) && e <= |mem| && e <= |mem'| &&
        SameBytes(mem, mem', s, e)
    requires JumpHas(code, base, mem, JumpPos(code, base, k), code[k].Next(), pend)
    requires forall item :: item in pend && ItemOf(code, base, item, k) ==> item in pend'
    ensures JumpHas(code, base, mem', JumpPos(code, base, k), code[k].Next(), pend')
  {
    ReadSame(mem, mem', s, e, JumpPos(code, base, k));
    assert ItemOf(code, base, FixItem(JumpPos(code, base, k), code[k].Next(), COND_AL), k);
  }

  // ----- fixing one jump

  /** The word that the fix-up writes for an item. */
  function FixWord(mem: seq<Byte>, item: FixItem, target: nat): nat
    requires item.from + 4 <= |mem| && (item.cond == COND_AL || Fits(item.from, target))
  {
    if item.cond == COND_AL then JumpWord(item.from, target)
    else Patched(ReadWord(mem, item.from), item.from, target)
  }

  /** Two jumps of the code are the same or do not overlap. */
  lemma ItemPlace(code: Code, base: nat, item: FixItem, k: nat)
    requires k < |code| && BlockWellFormed(code, k) && ItemOf(code, base, item, k)
    ensures Start(code, base, k) + |code[k].body| <= item.from
    ensures item.from + 4 <= Start(code, base, k) + Size(code, k) - |code[k].pool|
    ensures item.to < |code| && !code[k].tail.Exit?
  {
  }

  /** The block whose jump is fixed: that jump is final, the other one is as before. */
  lemma FixOwn(code: Code, base: nat, mem: seq<Byte>, k: nat, item: FixItem, rest: seq<FixItem>, w: nat)
    requires k < |code| && Holds(code, base, mem, k, [item] + rest) && ItemOf(code, base, item, k)
    requires item.from + 4 <= |mem| && (item.cond == COND_AL || Fits(item.from, Start(code, base, item.to)))
    requires WellFormed(code) && base % 2 == 0
    requires w == FixWord(mem, item, Start(code, base, item.to)) && w < 0x1_0000_0000
    ensures Holds(code, base, Put(mem, item.from, w), k, rest)
  {
    FixOwnData(code, base, mem, k, item, [item] + rest, w);
    if code[k].tail.Branch? { FixOwnCond(code, base, mem, k, item, rest, w); }
    if AddJmp(code, k) { FixOwnJump(code, base, mem, k, item, rest, w); }
  }

  lemma FixOwnData(code: Code, base: nat, mem: seq<Byte>, k: nat, item: FixItem, pend: seq<FixItem>, w: nat)
    requires k < |code| && Holds(code, base, mem, k, pend) && ItemOf(code, base, item, k)
    requires item.from + 4 <= |mem| && WellFormed(code) && w < 0x1_0000_0000
    ensures var m, s := Put(mem, item.from, w), Start(code, base, k); var e := s + Size(code, k);
      m[s..CondPos(code, base, k)] == code[k].body && (!code[k].tail.Exit? ==> m[e - |code[k].pool|..e] == code[k].pool)
  {
    ItemPlace(code, base, item, k);
    var s, p := Start(code, base, k), |code[k].pool|;
    var e := s + Size(code, k);
    PutAround(mem, item.from, w, s, CondPos(code, base, k), e - p, e);
  }

  lemma PutAround(mem: seq<Byte>, pos: nat, w: nat, a: nat, b: nat, c: nat, d: nat)
    requires w < 0x1_0000_0000 && a <= b <= pos && pos + 4 <= c <= d <= |mem|
    ensures Put(mem, pos, w)[a..b] == mem[a..b] && Put(mem, pos, w)[c..d] == mem[c..d]
  {
    PutBefore(mem, pos, w, a, b);
    PutBehind(mem, pos, w, c, d);
  }

  /** Writing a word leaves the bytes before and behind it. */
  lemma PutBefore(mem: seq<Byte>, pos: nat, w: nat, lo: nat, hi: nat)
    requires pos + 4 <= |mem| && w < 0x1_0000_0000 && lo <= hi <= pos
    ensures Put(mem, pos, w)[lo..hi] == mem[lo..hi]
  {
    PutSame(mem, pos, w);
    SameSlice(mem, Put(mem, pos, w), 0, pos, lo, hi);
  }

  lemma PutBehind(mem: seq<Byte>, pos: nat, w: nat, lo: nat, hi: nat)
    requires pos + 4 <= lo <= hi <= |mem| && w < 0x1_0000_0000
    ensures Put(mem, pos, w)[lo..hi] == mem[lo..hi]
  {
    PutSame(mem, pos, w);
    SameSlice(mem, Put(mem, pos, w), pos + 4, |mem|, lo, hi);
  }

  lemma FixOwnCond(code: Code, base: nat, mem: seq<Byte>, k: nat, item: FixItem, rest: seq<FixItem>, w: nat)
    requires k < |code| && Holds(code, base, mem, k, [item] + rest) && ItemOf(code, base, item, k)
    requires item.from + 4 <= |mem| && (item.cond == COND_AL || Fits(item.from, Start(code, base, item.to)))
    requires WellFormed(code) && base % 2 == 0 && code[k].tail.Branch?
    requires w == FixWord(mem, item, Start(code, base, item.to)) && w < 0x1_0000_0000
    ensures CondHas(code, base, Put(mem, item.from, w), CondPos(code, base, k), code[k].tail.cond, code[k].tail.onTrue,
        rest)
  {
    var b, cp := code[k], CondPos(code, base, k);
    var m := Put(mem, item.from, w);
    if item.from == cp {
      assert item == FixItem(cp, b.tail.onTrue, 0);
      ReadPut(mem, cp, w);
      JumpsEven(code, base, k, item.to);
      FixCond(code, base, mem, cp, b.tail.cond, item.to, [item] + rest);
    } else {
      PutSame(mem, item.from, w);
      ReadSame(mem, m, 0, item.from, cp);
    }
  }

  lemma FixOwnJump(code: Code, base: nat, mem: seq<Byte>, k: nat, item: FixItem, rest: seq<FixItem>, w: nat)
    requires k < |code| && Holds(code, base, mem, k, [item] + rest) && ItemOf(code, base, item, k)
    requires item.from + 4 <= |mem| && (item.cond == COND_AL || Fits(item.from, Start(code, base, item.to)))
    requires AddJmp(code, k)
    requires w == FixWord(mem, item, Start(code, base, item.to)) && w < 0x1_0000_0000
    ensures JumpHas(code, base, Put(mem, item.from, w), JumpPos(code, base, k), code[k].Next(), rest)
  {
    var b, jp := code[k], JumpPos(code, base, k);
    var m := Put(mem, item.from, w);
    if item.from == jp {
      assert item == FixItem(jp, b.Next(), COND_AL);
      ReadPut(mem, jp, w);
    } else {
      assert item.from + 4 <= jp;
      PutSame(mem, item.from, w);
      ReadSame(mem, m, item.from + 4, |mem|, jp);
    }
  }

  lemma FixCond(code: Code, base: nat, mem: seq<Byte>, pos: nat, cond: nat, t: nat, pend: seq<FixItem>)
    requires pos + 4 <= |mem| && t <= |code| && cond < COND_AL && CondHas(code, base, mem, pos, cond, t, pend)
    requires Fits(pos, Start(code, base, t)) && EvenApart(pos, Start(code, base, t))
    ensures Patched(ReadWord(mem, pos), pos, Start(code, base, t)) == CondWord(cond, pos, Start(code, base, t))
  {
    CondWordDecodes(cond, pos, Start(code, base, t));
    PatchKeepsCondition(ReadWord(mem, pos), cond, pos, Start(code, base, t));
  }

  /** Fixing the first pending jump leaves only the others pending. */
  lemma FixStep(code: Code, base: nat, mem: seq<Byte>, n: nat, item: FixItem, rest: seq<FixItem>, w: nat)
    requires n <= |code| && base % 2 == 0 && LaidOut(code, base, mem, n, [item] + rest)
    requires item.from + 4 <= |mem| && item.to <= |code|
    requires item.cond == COND_AL || Fits(item.from, Start(code, base, item.to))
    requires w == FixWord(mem, item, Start(code, base, item.to)) && w < 0x1_0000_0000
    ensures LaidOut(code, base, Put(mem, item.from, w), n, rest)
  {
    var pend := [item] + rest;
    assert pend[0] == item && ItemKnown(code, base, pend[0], n);
    var k :| 0 <= k < n && ItemOf(code, base, item, k);
    FixAll(code, base, mem, n, k, item, rest, w);
    RestKnown(code, base, n, item, rest);
  }

  lemma FixAll(code: Code, base: nat, mem: seq<Byte>, n: nat, k: nat, item: FixItem, rest: seq<FixItem>, w: nat)
    requires n <= |code| && k < |code| && base % 2 == 0 && LaidOut(code, base, mem, n, [item] + rest)
    requires item.from + 4 <= |mem| && item.to <= |code| && ItemOf(code, base, item, k)
    requires item.cond == COND_AL || Fits(item.from, Start(code, base, item.to))
    requires w == FixWord(mem, item, Start(code, base, item.to)) && w < 0x1_0000_0000
    ensures forall j :: 0 <= j < n ==> Holds(code, base, Put(mem, item.from, w), j, rest)
  {
    forall j | 0 <= j < n ensures Holds(code, base, Put(mem, item.from, w), j, rest) {
      FixHolds(code, base, mem, n, j, k, item, rest, w);
    }
  }

  lemma RestKnown(code: Code, base: nat, n: nat, item: FixItem, rest: seq<FixItem>)
    requires n <= |code| && forall i :: 0 <= i < |[item] + rest| ==> ItemKnown(code, base, ([item] + rest)[i], n)
    ensures forall i :: 0 <= i < |rest| ==> ItemKnown(code, base, rest[i], n)
  {
    forall i | 0 <= i < |rest| ensures ItemKnown(code, base, rest[i], n) {
      assert ([item] + rest)[i + 1] == rest[i];
    }
  }

  lemma FixHolds(code: Code, base: nat, mem: seq<Byte>, n: nat, j: nat, k: nat, item: FixItem, rest: seq<FixItem>,
      w: nat)
    requires j < n <= |code| && k < |code| && base % 2 == 0 && LaidOut(code, base, mem, n, [item] + rest)
    requires item.from + 4 <= |mem| && item.to <= |code| && ItemOf(code, base, item, k)
    requires item.cond == COND_AL || Fits(item.from, Start(code, base, item.to))
    requires w == FixWord(mem, item, Start(code, base, item.to)) && w < 0x1_0000_0000
    ensures Holds(code, base, Put(mem, item.from, w), j, rest)
  {
    if j == k {
      FixOwn(code, base, mem, k, item, rest, w);
    } else {
      FixOther(code, base, mem, j, k, item, rest, w);
    }
  }

  lemma FixOther(code: Code, base: nat, mem: seq<Byte>, j: nat, k: nat, item: FixItem, rest: seq<FixItem>, w: nat)
    requires j < |code| && k < |code| && j != k && WellFormed(code) && w < 0x1_0000_0000
    requires Holds(code, base, mem, j, [item] + rest) && ItemOf(code, base, item, k) && item.from + 4 <= |mem|
    ensures Holds(code, base, Put(mem, item.from, w), j, rest)
  {
    BlocksApart(code, base, item, j, k);
    PutSame(mem, item.from, w);
    assert SameBytes(mem, Put(mem, item.from, w), Start(code, base, j), Start(code, base, j) + Size(code, j));
    HoldsFrame(code, base, mem, Put(mem, item.from, w), j, [item] + rest, rest);
  }

  lemma BlocksApart(code: Code, base: nat, item: FixItem, j: nat, k: nat)
    requires j < |code| && k < |code| && j != k && WellFormed(code) && ItemOf(code, base, item, k)
    ensures Start(code, base, j) + Size(code, j) <= item.from || item.from + 4 <= Start(code, base, j)
    ensures !ItemOf(code, base, item, j)
  {
    assert BlockWellFormed(code, k) && BlockWellFormed(code, j);
    ItemPlace(code, base, item, k);
    if j < k { StartMonotone(code, base, j + 1, k); } else { StartMonotone(code, base, k + 1, j); }
    if ItemOf(code, base, item, j) { ItemPlace(code, base, item, j); }
  }

  // ----- what the finished code does

  /** Which conditions the flags satisfy. */
  type Flags = nat -> bool

  /** One branch instruction at pc. */
  function Step(mem: seq<Byte>, pc: nat, flags: Flags): int
    requires pc + 4 <= |mem|
  {
    match Decode(ReadWord(mem, pc))
    case BranchIf(cond, offset) => if flags(cond) then pc + 4 + offset else pc + 4
    case BranchAlways(offset) => pc + 4 + offset
    case NotABranch => -1
  }

  /** Where control leaves n branch instructions in a row, the first of them at pc. */
  function Leave(mem: seq<Byte>, pc: nat, flags: Flags, n: nat): int
    decreases n
  {
    if n == 0 then pc
    else if pc + 4 > |mem| then -1
    else if Step(mem, pc, flags) == pc + 4 then Leave(mem, pc + 4, flags, n - 1)
    else Step(mem, pc, flags)
  }

  /** The number of branch instructions at the end of block k. */
  function Branches(code: Code, k: nat): nat
    requires k < |code|
  {
    (if code[k].tail.Branch? then 1 else 0) + (if AddJmp(code, k) then 1 else 0)
  }

  /** Where the control-flow graph goes from block b. */
  function Successor(b: CodeBlock, flags: Flags): nat
    requires !b.tail.Exit?
  {
    match b.tail
    case Goto(s) => s
    case Branch(cond, t, f) => if flags(cond) then t else f
    case Exit => 0
  }

  /** The whole code lies within the range of a plain branch. */
  ghost predicate InRange(code: Code, base: nat) {
    Start(code, base, |code|) - base < 0x1000000
  }

  lemma JumpInRange(code: Code, base: nat, k: nat, t: nat)
    requires WellFormed(code) && base % 2 == 0 && InRange(code, base) && k < |code| && t < |code| && AddJmp(code, k)
    ensures var pos := JumpPos(code, base, k); var target := Start(code, base, t);
      Decode(JumpWord(pos, target)) == BranchAlways(target - (pos + 4))
  {
    JumpsEven(code, base, k, t);
    JumpWordDecodes(JumpPos(code, base, k), Start(code, base, t));
    Near(code, base, k, t);
  }

  lemma Near(code: Code, base: nat, k: nat, t: nat)
    requires InRange(code, base) && k < |code| && t < |code| && AddJmp(code, k)
    ensures -0x1000000 <= Start(code, base, t) - (JumpPos(code, base, k) + 4) < 0x1000000
  {
    StartMonotone(code, base, 0, k);
    StartMonotone(code, base, k + 1, |code|);
    StartMonotone(code, base, 0, t);
    StartMonotone(code, base, t, |code|);
  }

  lemma CondDecodes(code: Code, base: nat, k: nat)
    requires WellFormed(code) && base % 2 == 0 && k < |code| && code[k].tail.Branch? && BlockWellFormed(code, k)
    requires Fits(CondPos(code, base, k), Start(code, base, code[k].tail.onTrue))
    ensures var pos, target := CondPos(code, base, k), Start(code, base, code[k].tail.onTrue);
      Decode(CondWord(code[k].tail.cond, pos, target)) == BranchIf(code[k].tail.cond, target - (pos + 4))
  {
    JumpsEven(code, base, k, code[k].tail.onTrue);
    CondWordDecodes(code[k].tail.cond, CondPos(code, base, k), Start(code, base, code[k].tail.onTrue));
  }

  /** From the end of its body, block k's code leaves exactly to the start of the successor
      that the flags choose: by fall-through, by a direct jump or by a patched one. */
  lemma BlockReachesSuccessor(code: Code, base: nat, mem: seq<Byte>, k: nat, flags: Flags)
    requires LaidOut(code, base, mem, |code|, []) && base % 2 == 0 && InRange(code, base)
    requires k < |code| && !code[k].tail.Exit?
    ensures Successor(code[k], flags) < |code|
    ensures Leave(mem, CondPos(code, base, k), flags, Branches(code, k)) == Start(code, base, Successor(code[k], flags))
  {
    TailReachesNext(code, base, mem, k, flags);
    if code[k].tail.Branch? {
      CondStep(code, base, mem, k, flags);
      var t := code[k].tail.onTrue;
      if Start(code, base, t) == JumpPos(code, base, k) { NoStartAtJump(code, base, k, t); }
    }
  }

  /** What block k's conditional branch does. */
  lemma CondStep(code: Code, base: nat, mem: seq<Byte>, k: nat, flags: Flags)
    requires LaidOut(code, base, mem, |code|, []) && base % 2 == 0 && k < |code| && code[k].tail.Branch?
    ensures var pos, tail := CondPos(code, base, k), code[k].tail;
      && pos + 4 <= |mem| && tail.onTrue < |code|
      && Step(mem, pos, flags) == if flags(tail.cond) then Start(code, base, tail.onTrue) else JumpPos(code, base, k)
  {
    assert Holds(code, base, mem, k, []) && BlockWellFormed(code, k);
    CondDecodes(code, base, k);
  }

  /** No block starts at a block's final jump. */
  lemma NoStartAtJump(code: Code, base: nat, k: nat, t: nat)
    requires k < |code| && t < |code| && Start(code, base, t) == JumpPos(code, base, k) && code[k].tail.Branch?
    ensures !AddJmp(code, k)
  {
    if t <= k { StartMonotone(code, base, t, k); } else { StartMonotone(code, base, k + 1, t); }
  }

  /** Past its conditional branch, block k's code leaves to its false or sole successor. */
  lemma TailReachesNext(code: Code, base: nat, mem: seq<Byte>, k: nat, flags: Flags)
    requires LaidOut(code, base, mem, |code|, []) && base % 2 == 0 && InRange(code, base)
    requires k < |code| && !code[k].tail.Exit?
    ensures code[k].Next() < |code|
    ensures Leave(mem, JumpPos(code, base, k), flags, if AddJmp(code, k) then 1
        else 0) == Start(code, base, code[k].Next())
  {
    assert Holds(code, base, mem, k, []) && BlockWellFormed(code, k);
    var jp, dest := JumpPos(code, base, k), Start(code, base, code[k].Next());
    if AddJmp(code, k) {
      JumpInRange(code, base, k, code[k].Next());
      assert Step(mem, jp, flags) == dest;
    } else {
      assert Start(code, base, k + 1) == jp;
    }
  }

  // ----- whole runs

  /** Nothing is emitted for an empty block that falls through. */
  predicate Skipped(code: Code, k: nat)
    requires k < |code|
  {
    code[k].tail.Goto? && Size(code, k) == 0
  }

  /** The first block from k on for which something is emitted. */
  function FirstReal(code: Code, k: nat): (r: nat)
    requires k < |code|
    ensures k <= r < |code| && !Skipped(code, r)
    decreases |code| - k
  {
    if Skipped(code, k) then assert AddJmp(code, k) || k + 1 < |code|; FirstReal(code, k + 1) else k
  }

  lemma {:induction false} SkippedStart(code: Code, base: nat, k: nat)
    requires k < |code|
    ensures Start(code, base, FirstReal(code, k)) == Start(code, base, k)
    decreases |code| - k
  {
    if Skipped(code, k) { SkippedStart(code, base, k + 1); }
  }

  /** The block whose code stands at address a. */
  ghost predicate StandsAt(code: Code, base: nat, t: nat, a: int) {
    t < |code| && !Skipped(code, t) && Start(code, base, t) == a
  }

  /** A block that ends the function has code that does so. */
  ghost predicate ExitsHaveCode(code: Code) {
    forall k :: 0 <= k < |code| && code[k].tail.Exit? ==> code[k].body != []
  }

  lemma OneStandsAt(code: Code, base: nat, t: nat, u: nat, a: int)
    requires ExitsHaveCode(code) && StandsAt(code, base, t, a) && StandsAt(code, base, u, a)
    ensures t == u
  {
    if t < u { StartMonotone(code, base, t + 1, u); }
    if u < t { StartMonotone(code, base, u + 1, t); }
  }

  /** The blocks whose code is executed from address a on: the body of the block there, then its
      branches, which see the flags of the next input. */
  ghost function CodeRun(code: Code, base: nat, mem: seq<Byte>, a: int, inputs: seq<Flags>): seq<nat>
    decreases |inputs|
  {
    if t: nat :| StandsAt(code, base, t, a) then
      if inputs == [] || code[t].tail.Exit? then [t]
      else [t] + CodeRun(code, base, mem, Leave(mem, CondPos(code, base, t), inputs[0], Branches(code, t)), inputs[1..])
    else []
  }

  /** The blocks with code that the control-flow graph visits from block k on. */
  function GraphRun(code: Code, k: nat, inputs: seq<Flags>): seq<nat>
    decreases |inputs|
  {
    if k >= |code| then []
    else
      var t := FirstReal(code, k);
      if inputs == [] || code[t].tail.Exit? then [t]
          else [t] + GraphRun(code, Successor(code[t], inputs[0]), inputs[1..])
  }

  /** The emitted code visits exactly the blocks that the control-flow graph visits. */
  lemma {:induction false} CodeSimulatesGraph(code: Code, base: nat, mem: seq<Byte>, k: nat, inputs: seq<Flags>)
    requires LaidOut(code, base, mem, |code|, []) && base % 2 == 0 && InRange(code, base) && ExitsHaveCode(code) &&
        k < |code|
    ensures CodeRun(code, base, mem, Start(code, base, k), inputs) == GraphRun(code, k, inputs)
    decreases |inputs|
  {
    var a, t := Start(code, base, k), FirstReal(code, k);
    SkippedStart(code, base, k);
    assert StandsAt(code, base, t, a);
    forall u: nat | StandsAt(code, base, u, a) ensures u == t { OneStandsAt(code, base, t, u, a); }
    if inputs != [] && !code[t].tail.Exit? {
      BlockReachesSuccessor(code, base, mem, t, inputs[0]);
      CodeSimulatesGraph(code, base, mem, Successor(code[t], inputs[0]), inputs[1..]);
    }
  }
}
