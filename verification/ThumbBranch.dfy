/** The two Thumb branch encodings that the generator emits: the conditional
    branch (T3) and the plain one (T4) of section A8.8.18 of the ARMv7-A/R ARM. */
module ThumbBranch {
  import opened Bits

  const COND_AL: nat := 14

  /** C's division by two, which truncates toward zero. */
  function HalfTowardZero(a: int): int {
    if a >= 0 then a / 2 else -((-a) / 2)
  }

  /** A 32-bit int as an unsigned word. */
  function U32(a: int): (r: nat)
    ensures r < 0x1_0000_0000
  {
    a % 0x1_0000_0000
  }

  /** Bits l up to l + bw of a word, moved to bit r. */
  function ImmMap(imm: nat, l: nat, bw: nat, r: nat): nat {
    Shl(And(Shr(imm, l), Shl(1, bw) - 1), r)
  }

  function BitGet(imm: nat, l: nat, bw: nat): nat {
    And(Shr(imm, l), Shl(1, bw) - 1)
  }

  /** The halfword offset from pos to target. */
  function Halfwords(pos: nat, target: nat): int {
    HalfTowardZero(target - (pos + 4))
  }

  predicate EvenApart(pos: nat, target: nat) {
    (target - pos) % 2 == 0
  }

  predicate Fits(pos: nat, target: nat) {
    -0xEFFF <= Halfwords(pos, target) < 0xEFFF
  }

  /** encbranch accepts targets up to 122878 bytes behind the instruction's own address plus 4, and
      less than that far ahead. */
  lemma FitsInBytes(pos: nat, target: nat)
    requires EvenApart(pos, target)
    ensures Fits(pos, target) <==> -122878 <= target - (pos + 4) < 122878
  {
  }

  /** encbranch for an offset that it accepts. */
  function EncBranch(pos: nat, target: nat): nat
    requires Fits(pos, target)
  {
    var addr := U32(Halfwords(pos, target));
    Assemble(0xf0008000, ImmMap(addr, 31, 1, 26), ImmMap(addr, 18, 1, 11), ImmMap(addr, 17, 1, 13),
             ImmMap(addr, 11, 6, 16), ImmMap(addr, 0, 11, 0))
  }

  /** A chain of ors, from the left. */
  function Assemble(x: nat, a: nat, b: nat, c: nat, d: nat, e: nat): nat {
    Or(Or(Or(Or(Or(x, a), b), c), d), e)
  }

  /** (!i) ^ s for single bits; it is its own inverse in i. */
  function NotXor(i: nat, s: nat): (r: nat)
    ensures r < 2
  {
    if (if i == 0 then 1 else 0) == s then 0 else 1
  }

  /** encbranch2 with arm == 0: exclusive or and negation of single bits. */
  function EncBranch2(pos: nat, target: nat): nat {
    EncFar(U32(Halfwords(pos, target)))
  }

  function EncFar(addr: nat): nat {
    var s, i1, i2 := BitGet(addr, 31, 1), BitGet(addr, 22, 1), BitGet(addr, 21, 1);
    Assemble(0, Shl(s, 26), Shl(NotXor(i1, s), 13), Shl(NotXor(i2, s), 11), ImmMap(addr, 11, 10, 16),
        ImmMap(addr, 0, 11, 0))
  }

  // ----- the fields of the encodings

  lemma Powers()
    ensures Pow2(16) == 0x10000 && Pow2(17) == 0x20000 && Pow2(18) == 0x40000 && Pow2(21) == 0x200000
    ensures Pow2(22) == 0x400000 && Pow2(26) == 0x4000000 && Pow2(31) == 0x80000000
  {
    assert Pow2(8) == 256;
    assert Pow2(12) == 0x1000;
    assert Pow2(16) == 0x10000;
    assert Pow2(21) == 0x200000;
    assert Pow2(26) == 0x4000000;
  }

  /** Or-ing a field between the bits of hi and lo. */
  lemma OrField(x: nat, v: nat, l: nat, w: nat, pl: nat, pw: nat, hi: nat, lo: nat)
    requires pl == Pow2(l) && pw == Pow2(w) && v < pw && lo < pl && x == pl * (pw * hi) + lo
    ensures Or(x, Shl(v, l)) == x + v * pl
  {
    ShrDiv(x, l);
    DivUnique(x, pl, pw * hi, lo);
    DivUnique(pw * hi, pw, hi, 0);
    OrIntoClear(x, v, l, w);
    ShlMul(v, l);
  }

  lemma MapField(imm: nat, l: nat, bw: nat, pl: nat, pw: nat)
    requires pl == Pow2(l) && pw == Pow2(bw)
    ensures And(Shr(imm, l), Shl(1, bw) - 1) == (imm / pl) % pw
  {
    ShlMul(1, bw);
    AndMask(Shr(imm, l), 0, bw);
    ShrDiv(imm, l);
  }

  /** The fields of a T3 branch by an offset of a halfwords. */
  lemma EncBranchFields(pos: nat, target: nat)
    requires Fits(pos, target)
    ensures var a := U32(Halfwords(pos, target));
      EncBranch(pos, target) ==
        0xf0008000 + (a / 0x80000000) * 0x4000000 + ((a / 0x40000) % 2) * 0x800 + ((a / 0x20000) % 2) * 0x2000
        + ((a / 0x800) % 64) * 0x10000 + a % 0x800
  {
    var a := U32(Halfwords(pos, target));
    var s, j2, j1, h, l := a / 0x80000000, (a / 0x40000) % 2, (a / 0x20000) % 2, (a / 0x800) % 64, a % 0x800;
    TopBit(a);
    FieldsMapped(a, s, j2, j1, h, l);
    EncSum(0xf0008000, s, j2, j1, h, l, Shl(s, 26), Shl(j2, 11), Shl(j1, 13), Shl(h, 16), Shl(l, 0));
  }

  lemma FieldsMapped(a: nat, s: nat, j2: nat, j1: nat, h: nat, l: nat)
    requires s == (a / 0x80000000) % 2 && j2 == (a / 0x40000) % 2 && j1 == (a / 0x20000) % 2
    requires h == (a / 0x800) % 64 && l == a % 0x800
    ensures ImmMap(a, 31, 1, 26) == Shl(s, 26) && ImmMap(a, 18, 1, 11) == Shl(j2, 11)
    ensures ImmMap(a, 17, 1, 13) == Shl(j1, 13) && ImmMap(a, 11, 6, 16) == Shl(h, 16)
    ensures ImmMap(a, 0, 11, 0) == Shl(l, 0)
  {
    Powers();
    MapTo(a, 31, 1, 26, 0x80000000, 2, s);
    MapTo(a, 18, 1, 11, 0x40000, 2, j2);
    MapTo(a, 17, 1, 13, 0x20000, 2, j1);
    MapTo(a, 11, 6, 16, 0x800, 64, h);
    MapTo(a, 0, 11, 0, 1, 0x800, l);
  }

  lemma TopBit(a: nat)
    requires a < 0x1_0000_0000
    ensures a / 0x80000000 < 2 && (a / 0x80000000) % 2 == a / 0x80000000
  {
  }

  lemma MapTo(imm: nat, l: nat, bw: nat, r: nat, pl: nat, pw: nat, v: nat)
    requires pl == Pow2(l) && pw == Pow2(bw) && v == (imm / pl) % pw
    ensures ImmMap(imm, l, bw, r) == Shl(v, r)
  {
    MapField(imm, l, bw, pl, pw);
  }

  lemma AssembleSteps(x0: nat, x1: nat, x2: nat, x3: nat, x4: nat, x5: nat, a: nat, b: nat, c: nat, d: nat, e: nat)
    requires Or(x0, a) == x1 && Or(x1, b) == x2 && Or(x2, c) == x3 && Or(x3, d) == x4 && Or(x4, e) == x5
    ensures Assemble(x0, a, b, c, d, e) == x5
  {
  }

  lemma EncSum(x0: nat, s: nat, j2: nat, j1: nat, imm6: nat, imm11: nat, a: nat, b: nat, c: nat, d: nat, e: nat)
    requires x0 == 0xf0008000
    requires s < 2 && j2 < 2 && j1 < 2 && imm6 < 64 && imm11 < 0x800
    requires a == Shl(s, 26) && b == Shl(j2, 11) && c == Shl(j1, 13) && d == Shl(imm6, 16) && e == Shl(imm11, 0)
    ensures Assemble(x0, a, b, c, d, e) ==
      0xf0008000 + s * 0x4000000 + j2 * 0x800 + j1 * 0x2000 + imm6 * 0x10000 + imm11
  {
    Powers();
    OrField(x0, s, 26, 1, 0x4000000, 2, 30, 0x8000);
    var x1 := x0 + s * 0x4000000;
    OrField(x1, j2, 11, 1, 0x800, 2, (30 * 2 + s) * 0x4000 + 8, 0);
    var x2 := x1 + j2 * 0x800;
    OrField(x2, j1, 13, 1, 0x2000, 2, (30 * 2 + s) * 0x1000 + 2, j2 * 0x800);
    var x3 := x2 + j1 * 0x2000;
    OrField(x3, imm6, 16, 6, 0x10000, 64, (30 * 2 + s) * 16, 0x8000 + j1 * 0x2000 + j2 * 0x800);
    var x4 := x3 + imm6 * 0x10000;
    OrField(x4, imm11, 0, 11, 1, 0x800, (30 * 2 + s) * 0x8000 + imm6 * 32 + 16 + j1 * 4 + j2, 0);
    AssembleSteps(x0, x1, x2, x3, x4, x4 + imm11, a, b, c, d, e);
  }

  lemma EncFarFields(x0: nat, a: nat)
    requires x0 == 0xf0009000 && a < 0x1_0000_0000
    ensures var s, i1, i2 := a / 0x80000000, (a / 0x400000) % 2, (a / 0x200000) % 2;
      Or(x0, EncFar(a)) ==
        0xf0009000 + s * 0x4000000 + NotXor(i1, s) * 0x2000 + NotXor(i2, s) * 0x800
        + ((a / 0x800) % 0x400) * 0x10000 + a % 0x800
  {
    Powers();
    MapField(a, 31, 1, 0x80000000, 2);
    MapField(a, 22, 1, 0x400000, 2);
    MapField(a, 21, 1, 0x200000, 2);
    MapField(a, 11, 10, 0x800, 0x400);
    MapField(a, 0, 11, 1, 0x800);
    var s, i1, i2 := a / 0x80000000, (a / 0x400000) % 2, (a / 0x200000) % 2;
    var b, c, d := Shl(NotXor(i1, s), 13), Shl(NotXor(i2, s), 11), ImmMap(a, 11, 10, 16);
    assert EncFar(a) == Assemble(0, Shl(s, 26), b, c, d, ImmMap(a, 0, 11, 0));
    EncSum2(x0, s, NotXor(i1, s), NotXor(i2, s), (a / 0x800) % 0x400, a % 0x800, Shl(s, 26), b, c, d,
        ImmMap(a, 0, 11, 0));
  }

  lemma EncSum2(x0: nat, s: nat, j1: nat, j2: nat, imm10: nat, imm11: nat, a: nat, b: nat, c: nat, d: nat, e: nat)
    requires x0 == 0xf0009000
    requires s < 2 && j2 < 2 && j1 < 2 && imm10 < 0x400 && imm11 < 0x800
    requires a == Shl(s, 26) && b == Shl(j1, 13) && c == Shl(j2, 11) && d == Shl(imm10, 16) && e == Shl(imm11, 0)
    ensures Or(x0, Assemble(0, a, b, c, d, e)) ==
      0xf0009000 + s * 0x4000000 + j1 * 0x2000 + j2 * 0x800 + imm10 * 0x10000 + imm11
  {
    Powers();
    OrField(x0, s, 26, 1, 0x4000000, 2, 30, 0x9000);
    var x1 := x0 + s * 0x4000000;
    OrField(x1, j1, 13, 1, 0x2000, 2, (30 * 2 + s) * 0x1000 + 2, 0x1000);
    var x2 := x1 + j1 * 0x2000;
    OrField(x2, j2, 11, 1, 0x800, 2, (30 * 2 + s) * 0x4000 + 9 + j1 * 2, 0);
    var x3 := x2 + j2 * 0x800;
    OrField(x3, imm10, 16, 10, 0x10000, 0x400, 30 * 2 + s, 0x9000 + j1 * 0x2000 + j2 * 0x800);
    var x4 := x3 + imm10 * 0x10000;
    OrField(x4, imm11, 0, 11, 1, 0x800, (30 * 2 + s) * 0x8000 + imm10 * 32 + 18 + j1 * 4 + j2, 0);
    AssembleSteps(x0, x1, x2, x3, x4, x4 + imm11, a, b, c, d, e);
    AssembleOnto(x0, a, b, c, d, e);
  }

  lemma AssembleOnto(x: nat, a: nat, b: nat, c: nat, d: nat, e: nat)
    ensures Or(x, Assemble(0, a, b, c, d, e)) == Assemble(x, a, b, c, d, e)
  {
    var y1 := Or(0, a);
    var y2 := Or(y1, b);
    var y3 := Or(y2, c);
    var y4 := Or(y3, d);
    OrAssoc(x, y1, b);
    OrAssoc(x, y2, c);
    OrAssoc(x, y3, d);
    OrAssoc(x, y4, e);
  }

  // ----- decoding, as the manual defines it

  /** A branch by an offset in bytes from the address of the instruction plus 4. */
  datatype Instr = BranchIf(cond: nat, offset: int) | BranchAlways(offset: int) | NotABranch

  function Decode(w: nat): Instr {
    var s, j1, j2 := Field(w, 26, 1), Field(w, 13, 1), Field(w, 11, 1);
    if Field(w, 27, 5) != 30 || Field(w, 14, 2) != 2 then NotABranch
    else if Field(w, 12, 1) == 0 then
      var cond := Field(w, 22, 4);
      if cond >= COND_AL then NotABranch
      else BranchIf(cond, Signed(s, ((j2 * 2 + j1) * 64 + Field(w, 16, 6)) * 0x800 + Field(w, 0, 11), 0x80000))
    else
      BranchAlways(Signed(s,
          ((NotXor(j1, s) * 2 + NotXor(j2, s)) * 0x400 + Field(w, 16, 10)) * 0x800 + Field(w, 0, 11), 0x800000))
  }

  /** The byte offset of a halfword offset whose sign bit s has weight m. */
  function Signed(s: nat, imm: nat, m: nat): int {
    2 * (imm - s * m)
  }

  lemma FieldAt(x: nat, v: nat, l: nat, w: nat, pl: nat, pw: nat, hi: nat, lo: nat)
    requires pl == Pow2(l) && pw == Pow2(w) && v < pw && lo < pl && x == pl * (pw * hi + v) + lo
    ensures Field(x, l, w) == v
  {
    ShrDiv(x, l);
    DivUnique(x, pl, pw * hi + v, lo);
    DivUnique(pw * hi + v, pw, hi, v);
  }

  lemma MorePowers()
    ensures Pow2(1) == 2 && Pow2(2) == 4 && Pow2(4) == 16 && Pow2(5) == 32 && Pow2(6) == 64 && Pow2(10) == 0x400 &&
        Pow2(11) == 0x800
    ensures Pow2(12) == 0x1000 && Pow2(13) == 0x2000 && Pow2(14) == 0x4000 && Pow2(16) == 0x10000
    ensures Pow2(22) == 0x400000 && Pow2(26) == 0x4000000 && Pow2(27) == 0x8000000
  {
    Powers();
    assert Pow2(27) == 2 * Pow2(26);
  }

  /** Decoding a T3 word built from its fields. */
  lemma DecodeSum(w: nat, cond: nat, s: nat, j2: nat, j1: nat, imm6: nat, imm11: nat)
    requires cond < COND_AL && s < 2 && j2 < 2 && j1 < 2 && imm6 < 64 && imm11 < 0x800
    requires w == 0xf0008000 + cond * 0x400000 + s * 0x4000000 + j2 * 0x800 + j1 * 0x2000 + imm6 * 0x10000 + imm11
    ensures Field(w, 22, 4) == cond
    ensures Decode(w) == BranchIf(cond, Signed(s, ((j2 * 2 + j1) * 64 + imm6) * 0x800 + imm11, 0x80000))
  {
    MorePowers();
    var low11 := 0x800 * j2 + imm11;
    var low13 := 0x2000 * j1 + low11;
    var low16 := 0x8000 + low13;
    var low22 := 0x10000 * imm6 + low16;
    var low26 := 0x400000 * cond + low22;
    FieldAt(w, 30, 27, 5, 0x8000000, 32, 0, 0x4000000 * s + low26);
    FieldAt(w, s, 26, 1, 0x4000000, 2, 30, low26);
    FieldAt(w, cond, 22, 4, 0x400000, 16, 60 + s, low22);
    var hi22 := (60 + s) * 16 + cond;
    FieldAt(w, imm6, 16, 6, 0x10000, 64, hi22, low16);
    var hi16 := hi22 * 64 + imm6;
    FieldAt(w, 2, 14, 2, 0x4000, 4, hi16, low13);
    FieldAt(w, j1, 13, 1, 0x2000, 2, hi16 * 4 + 2, low11);
    var hi13 := (hi16 * 4 + 2) * 2 + j1;
    FieldAt(w, 0, 12, 1, 0x1000, 2, hi13, low11);
    FieldAt(w, j2, 11, 1, 0x800, 2, hi13 * 2, imm11);
    FieldAt(w, imm11, 0, 11, 1, 0x800, (hi13 * 2) * 2 + j2, 0);
  }

  /** Decoding a T4 word built from its fields. */
  lemma DecodeFarSum(w: nat, s: nat, j1: nat, j2: nat, imm10: nat, imm11: nat)
    requires s < 2 && j2 < 2 && j1 < 2 && imm10 < 0x400 && imm11 < 0x800
    requires w == 0xf0009000 + s * 0x4000000 + j1 * 0x2000 + j2 * 0x800 + imm10 * 0x10000 + imm11
    ensures Decode(w) == BranchAlways(Signed(s, ((NotXor(j1, s) * 2 + NotXor(j2, s)) * 0x400 + imm10) * 0x800 + imm11,
        0x800000))
  {
    MorePowers();
    var low11 := 0x800 * j2 + imm11;
    var low13 := 0x2000 * j1 + 0x1000 + low11;
    var low16 := 0x8000 + low13;
    var low26 := 0x10000 * imm10 + low16;
    FieldAt(w, 30, 27, 5, 0x8000000, 32, 0, 0x4000000 * s + low26);
    FieldAt(w, s, 26, 1, 0x4000000, 2, 30, low26);
    FieldAt(w, imm10, 16, 10, 0x10000, 0x400, 60 + s, low16);
    var hi16 := (60 + s) * 0x400 + imm10;
    FieldAt(w, 2, 14, 2, 0x4000, 4, hi16, low13);
    FieldAt(w, j1, 13, 1, 0x2000, 2, hi16 * 4 + 2, 0x1000 + low11);
    var hi13 := (hi16 * 4 + 2) * 2 + j1;
    FieldAt(w, 1, 12, 1, 0x1000, 2, hi13, low11);
    FieldAt(w, j2, 11, 1, 0x800, 2, hi13 * 2 + 1, imm11);
    FieldAt(w, imm11, 0, 11, 1, 0x800, (hi13 * 2 + 1) * 2 + j2, 0);
  }

  /** The fields of a halfword offset of 19 bits put together again. */
  lemma Recompose(h: int)
    requires -0x40000 <= h < 0x40000
    ensures var a := U32(h);
      2 * h == Signed(a / 0x80000000,
          (((a / 0x40000) % 2 * 2 + (a / 0x20000) % 2) * 64 + (a / 0x800) % 64) * 0x800 + a % 0x800, 0x80000)
  {
    var a := U32(h);
    var q := a / 0x800;
    var r := q / 64;
    assert a / 0x20000 == r && a / 0x40000 == r / 2;
    assert h >= 0 ==> a == h;
    assert h < 0 ==> a == h + 0x1_0000_0000;
  }

  lemma RecomposeFar(h: int)
    requires -0x800000 <= h < 0x800000
    ensures var a := U32(h);
      2 * h == Signed(a / 0x80000000,
          (((a / 0x400000) % 2 * 2 + (a / 0x200000) % 2) * 0x400 + (a / 0x800) % 0x400) * 0x800 + a % 0x800, 0x800000)
  {
    var a := U32(h);
    var q := a / 0x800;
    var r := q / 0x400;
    assert a / 0x200000 == r && a / 0x400000 == r / 2;
    assert h >= 0 ==> a == h;
    assert h < 0 ==> a == h + 0x1_0000_0000;
  }

  /** The conditional branch that write_cbranch emits. */
  function CondWord(cond: nat, pos: nat, target: nat): nat
    requires Fits(pos, target)
  {
    Or(Shl(cond, 22), EncBranch(pos, target))
  }

  /** The plain branch that run_block emits. */
  function JumpWord(pos: nat, target: nat): nat {
    Or(0xf0009000, EncBranch2(pos, target))
  }

  lemma HalfExact(pos: nat, target: nat)
    requires EvenApart(pos, target)
    ensures 2 * Halfwords(pos, target) == target - (pos + 4)
  {
    var d := target - (pos + 4);
    assert d % 2 == 0;
    if d < 0 { assert (-d) % 2 == 0; }
  }

  /** A conditional branch decodes to its condition and its target. */
  lemma CondWordDecodes(cond: nat, pos: nat, target: nat)
    requires Fits(pos, target) && cond < COND_AL && EvenApart(pos, target)
    ensures Decode(CondWord(cond, pos, target)) == BranchIf(cond, target - (pos + 4))
    ensures Field(CondWord(cond, pos, target), 22, 4) == cond && CondWord(cond, pos, target) < 0x1_0000_0000
  {
    var a := U32(Halfwords(pos, target));
    EncBranchFields(pos, target);
    CondSum(cond, EncBranch(pos, target), a / 0x80000000, (a / 0x40000) % 2, (a / 0x20000) % 2, (a / 0x800) % 64,
        a % 0x800);
    Recompose(Halfwords(pos, target));
    HalfExact(pos, target);
  }

  lemma CondSum(cond: nat, enc: nat, s: nat, j2: nat, j1: nat, imm6: nat, imm11: nat)
    requires cond < COND_AL && s < 2 && j2 < 2 && j1 < 2 && imm6 < 64 && imm11 < 0x800
    requires enc == 0xf0008000 + s * 0x4000000 + j2 * 0x800 + j1 * 0x2000 + imm6 * 0x10000 + imm11
    ensures var w := Or(Shl(cond, 22), enc);
      && w < 0x1_0000_0000 && Field(w, 22, 4) == cond
      && Decode(w) == BranchIf(cond, Signed(s, ((j2 * 2 + j1) * 64 + imm6) * 0x800 + imm11, 0x80000))
  {
    MorePowers();
    OrComm(Shl(cond, 22), enc);
    OrField(enc, cond, 22, 4, 0x400000, 16, 60 + s, imm6 * 0x10000 + 0x8000 + j1 * 0x2000 + j2 * 0x800 + imm11);
    DecodeSum(enc + cond * 0x400000, cond, s, j2, j1, imm6, imm11);
  }

  /** A plain branch decodes to its target exactly within 16 MB: the generator's own
      range test is never true, so beyond that it emits a branch to somewhere else. */
  lemma JumpWordDecodes(pos: nat, target: nat)
    requires EvenApart(pos, target)
    ensures Decode(JumpWord(pos, target)) == BranchAlways(target - (pos + 4))
            <==> -0x1000000 <= target - (pos + 4) < 0x1000000
    ensures JumpWord(pos, target) < 0x1_0000_0000
  {
    HalfExact(pos, target);
    var h := Halfwords(pos, target);
    FarInRange(0xf0009000, U32(h));
    if -0x800000 <= h < 0x800000 { FarDecodes(0xf0009000, h); }
  }

  lemma FarInRange(x0: nat, a: nat)
    requires x0 == 0xf0009000 && a < 0x1_0000_0000
    ensures var w := Or(x0, EncFar(a));
      w < 0x1_0000_0000 && Decode(w).BranchAlways? && -0x1000000 <= Decode(w).offset < 0x1000000
  {
    EncFarFields(x0, a);
    var s, i1, i2 := a / 0x80000000, (a / 0x400000) % 2, (a / 0x200000) % 2;
    DecodeFarSum(Or(x0, EncFar(a)), s, NotXor(i1, s), NotXor(i2, s), (a / 0x800) % 0x400, a % 0x800);
  }

  lemma FarDecodes(x0: nat, h: int)
    requires x0 == 0xf0009000 && -0x800000 <= h < 0x800000
    ensures var w := Or(x0, EncFar(U32(h)));
      w < 0x1_0000_0000 && Decode(w) == BranchAlways(2 * h)
  {
    var a := U32(h);
    EncFarFields(x0, a);
    var s, i1, i2 := a / 0x80000000, (a / 0x400000) % 2, (a / 0x200000) % 2;
    NotXorTwice(i1, s);
    NotXorTwice(i2, s);
    DecodeFarSum(Or(x0, EncFar(a)), s, NotXor(i1, s), NotXor(i2, s), (a / 0x800) % 0x400, a % 0x800);
    RecomposeFar(h);
  }

  lemma NotXorTwice(i: nat, s: nat)
    requires i < 2 && s < 2
    ensures NotXor(NotXor(i, s), s) == i
  {
  }

  /** The fix-up of a conditional branch: keep the condition field, encode the offset anew. */
  function Patched(w: nat, pos: nat, target: nat): nat
    requires Fits(pos, target)
  {
    Or(And(w, 0x03c00000), EncBranch(pos, target))
  }

  lemma PatchKeepsCondition(w: nat, cond: nat, pos: nat, target: nat)
    requires Fits(pos, target) && Field(w, 22, 4) == cond
    ensures Patched(w, pos, target) == CondWord(cond, pos, target)
  {
    MorePowers();
    ShlMul(15, 22);
    AndMask(w, 22, 4);
  }
}
