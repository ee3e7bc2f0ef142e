/** The code generator's two passes: emit the blocks in order, then fix the forward jumps. */
module ThumbGen {
  import opened Bits
  import opened ThumbBranch
  import opened CodeLayout

  class Generator {
    const data: array<Byte>
    const base: nat
    const end: nat
    var ind: nat
    var cg: seq<int>            // where each block starts, -1 until it is placed
    var flist: seq<FixItem>

    constructor (buffer: array<Byte>, start: nat, size: nat, blocks: nat)
      requires start + size + 3 <= buffer.Length
      ensures data == buffer && base == start && end == start + size && ind == start
      ensures cg == seq(blocks, _ => -1) && flist == []
    {
      data, base, end, ind := buffer, start, start + size, start;
      cg, flist := seq(blocks, _ => -1), [];
    }

    /** Append bytes to the code.  Fails when the function's space is used up. */
    method Out(bs: seq<Byte>) returns (ok: bool)
      requires ind <= data.Length
      modifies this`ind, data
      ensures !ok ==> bs != [] && (ind >= end || ind + |bs| > data.Length) && ind == old(ind)
      ensures ok ==> ind == old(ind) + |bs| <= data.Length && data[..] == Stored(old(data[..]), old(ind), bs)
    {
      if bs == [] { return true; }
      if ind >= end || ind + |bs| > data.Length { return false; }
      ghost var mem := data[..];
      var i := 0;
      while i < |bs|
        invariant 0 <= i <= |bs| && ind == old(ind) && ind + |bs| <= data.Length
        invariant data[..] == mem[..ind] + bs[..i] + mem[ind + i..]
      {
        data[ind + i] := bs[i];
        i := i + 1;
      }
      ind := ind + |bs|;
      ok := true;
    }

    /** write_thumb2 at an address of the code written so far. */
    method WriteThumb2(w: nat, pos: nat)
      requires pos + 4 <= data.Length && w < 0x1_0000_0000
      modifies data
      ensures data[..] == Put(old(data[..]), pos, w)
    {
      var bs := Bytes(w);
      data[pos + 2] := bs[2];
      data[pos + 3] := bs[3];
      data[pos] := bs[0];
      data[pos + 1] := bs[1];
    }

    /** The blocks below n are placed where the layout says, and no other. */
    ghost predicate Placed(code: Code, n: nat)
      requires n <= |code|
      reads this`cg
    {
      && |cg| == |code|
      && forall t :: 0 <= t < |code| ==> cg[t] == if t < n then Start(code, base, t) as int else -1
    }

    /** The conditional branch at the end of block k's body. */
    method WriteCbranch(code: Code, k: nat) returns (ok: bool, ghost w: nat)
      requires k < |code| && Placed(code, k + 1) && BlockWellFormed(code, k) && code[k].tail.Branch?
      requires ind == CondPos(code, base, k) && ind <= data.Length && end + 3 <= data.Length
      requires WellFormed(code) && base % 2 == 0
      modifies this`ind, this`flist, data
      ensures w < 0x1_0000_0000
      ensures ok ==> ind == old(ind) + 4 <= data.Length && data[..] == Stored(old(data[..]), old(ind), Bytes(w))
      ensures old(flist) <= flist <= old(flist) + [FixItem(old(ind), code[k].tail.onTrue, 0)]
      ensures ok ==> CondWritten(code, base, old(ind), code[k].tail.cond, code[k].tail.onTrue, w, flist)
      ensures !ok ==> old(ind) >= end || !Fits(old(ind), Start(code, base, code[k].tail.onTrue))
    {
      var t, cond := code[k].tail.onTrue, code[k].tail.cond;
      w := 0;
      JumpsEven(code, base, k, t);
      var pos, target := ind, cg[t];
      if cg[t] < 0 {
        pos, target := 0, 0;
      }
      if !Fits(pos, target) { return false, w; }
      CondWordDecodes(cond, pos, target);
      var x := CondWord(cond, pos, target);
      w := x;
      if cg[t] < 0 { flist := flist + [FixItem(ind, t, 0)]; }
      ok := Out(Bytes(x));
    }

    /** The jump at the end of block k. */
    method WriteJump(code: Code, k: nat) returns (ok: bool, ghost w: nat)
      requires k < |code| && Placed(code, k + 1) && BlockWellFormed(code, k) && AddJmp(code, k)
      requires ind == JumpPos(code, base, k) && ind <= data.Length && end + 3 <= data.Length
      requires WellFormed(code) && base % 2 == 0
      modifies this`ind, this`flist, data
      ensures w < 0x1_0000_0000
      ensures ok ==> ind == old(ind) + 4 <= data.Length && data[..] == Stored(old(data[..]), old(ind), Bytes(w))
      ensures old(flist) <= flist <= old(flist) + [FixItem(old(ind), code[k].Next(), COND_AL)]
      ensures ok ==> JumpWritten(code, base, old(ind), code[k].Next(), w, flist)
      ensures !ok ==> old(ind) >= end
    {
      var b1 := code[k].Next();
      JumpsEven(code, base, k, b1);
      var x;
      if cg[b1] >= 0 {
        JumpWordDecodes(ind, cg[b1]);
        x := JumpWord(ind, cg[b1]);
      } else {
        JumpWordDecodes(0, 0);
        x := JumpWord(0, 0);
        flist := flist + [FixItem(ind, b1, COND_AL)];
      }
      w := x;
      ok := Out(Bytes(x));
    }

    /** What holds before block n is emitted. */
    ghost predicate Emitting(code: Code, n: nat, mem0: seq<Byte>)
      requires n <= |code|
      reads this`ind, this`cg, this`flist, data
    {
      && WellFormed(code) && base % 2 == 0 && end + 3 <= data.Length && |mem0| == data.Length
      && ind == Start(code, base, n) && ind <= data.Length
      && Placed(code, n)
      && LaidOut(code, base, data[..], n, flist)
      && Outside(mem0, data[..], base, ind)
    }

    /** The conditional branch at the end of block k, and a jump where one is needed. */
    method WriteBranches(code: Code, k: nat, ghost mem: seq<Byte>, ghost pend0: seq<FixItem>)
        returns (ok: bool, ghost w1: nat, ghost w2: nat)
      requires k < |code| && WellFormed(code) && base % 2 == 0 && end + 3 <= data.Length && Placed(code, k + 1)
      requires ind == CondPos(code, base, k) && ind <= data.Length && data[..] == mem && flist == pend0
      modifies this`ind, this`flist, data
      ensures w1 < 0x1_0000_0000 && w2 < 0x1_0000_0000
      ensures ok ==> ind == BranchesEnd(code, base, k) <= data.Length
      ensures ok ==> data[..] == AfterBranches(code, base, mem, k, w1, w2)
      ensures ok ==> WordsWritten(code, base, k, w1, w2, flist)
      ensures ok ==> ItemsAdded(code, base, k, pend0, flist)
      ensures !ok ==> BranchesEnd(code, base, k) > end || (code[k].tail.Branch? && !CondFits(code, base, k))
    {
      w1, w2 := 0, 0;
      assert BlockWellFormed(code, k);
      ok := true;
      if code[k].tail.Branch? {
        ok, w1 := WriteCbranch(code, k);
        if !ok { return; }
      }
      if AddJmp(code, k) { ok, w2 := WriteJump(code, k); }
    }

    /** The bytes of block k: its body, its branches, its pool. */
    method EmitBlock(code: Code, k: nat, ghost mem: seq<Byte>, ghost pend0: seq<FixItem>)
        returns (ok: bool, ghost w1: nat, ghost w2: nat)
      requires k < |code| && WellFormed(code) && base % 2 == 0 && end + 3 <= data.Length && Placed(code, k + 1)
      requires ind == Start(code, base, k) && ind <= data.Length && data[..] == mem && flist == pend0
      modifies this`ind, this`flist, data
      ensures w1 < 0x1_0000_0000 && w2 < 0x1_0000_0000
      ensures ok ==> ind == Start(code, base, k) + Size(code, k) <= data.Length
      ensures ok ==> data[..] == AfterBlock(code, base, mem, k, w1, w2)
      ensures ok ==> WordsWritten(code, base, k, w1, w2, flist)
      ensures ok ==> ItemsAdded(code, base, k, pend0, flist)
      ensures !ok ==> Start(code, base, k) + Size(code, k) > end || (code[k].tail.Branch? && !CondFits(code, base, k))
    {
      w1, w2 := 0, 0;
      ok := Out(code[k].body);
      if ok { ok, w1, w2 := WriteBranches(code, k, data[..], pend0); }
      if ok && !code[k].tail.Exit? { ok := Out(code[k].pool); }
    }

    /** run_block for the block at position k. */
    method RunBlock(code: Code, k: nat, ghost mem0: seq<Byte>) returns (ok: bool)
      requires k < |code| && Emitting(code, k, mem0)
      modifies this`ind, this`cg, this`flist, data
      ensures ok ==> Emitting(code, k + 1, mem0)
      ensures !ok ==> !Room(code, base, end) || !CondsFit(code, base)
    {
      ghost var mem, pend0 := data[..], flist;
      ghost var w1, w2;
      cg := cg[k := ind];
      ok, w1, w2 := EmitBlock(code, k, mem, pend0);
      if ok {
        EmitStep(code, base, mem, k, w1, w2, pend0, flist);
        EmitOutside(code, base, mem0, mem, k, w1, w2);
      } else {
        StartMonotone(code, base, k + 1, |code|);
      }
    }

    /** The second pass: fix the pending jumps, now that every block has its place.
        Fails when encbranch refuses a conditional branch. */
    method FixJumps(code: Code, ghost mem0: seq<Byte>) returns (ok: bool)
      requires Emitting(code, |code|, mem0)
      modifies data
      ensures ok ==> LaidOut(code, base, data[..], |code|, []) && Outside(mem0, data[..], base, ind)
      ensures ok <==> CondsFit(code, base)
    {
      var i := 0;
      while i < |flist|
        invariant 0 <= i <= |flist|
        invariant LaidOut(code, base, data[..], |code|, flist[i..])
        invariant Outside(mem0, data[..], base, ind)
      {
        ghost var mem := data[..];
        var item := flist[i];
        assert flist[i..] == [item] + flist[i + 1..];
        PendingItem(code, base, mem, item, flist[i..]);
        var target := cg[item.to];
        var x;
        if item.cond == COND_AL {
          JumpWordDecodes(item.from, target);
          x := JumpWord(item.from, target);
        } else {
          if !Fits(item.from, target) { return false; }
          x := Patched(ReadWord(data[..], item.from), item.from, target);
          FixedWord(code, base, mem, item, flist[i..], x);
        }
        WriteThumb2(x, item.from);
        FixStep(code, base, mem, |code|, item, flist[i + 1..], x);
        PutOutside(mem0, mem, base, ind, item.from, x);
        i := i + 1;
      }
      assert flist[i..] == [];
      FinishedFits(code, base, data[..]);
      ok := true;
    }

    /** run: emit every block in order, then fix the forward jumps.  When it succeeds,
        the memory holds the laid-out code and nothing outside of it has changed. */
    method Run(code: Code) returns (ok: bool)
      requires WellFormed(code) && base % 2 == 0 && base <= end && end + 3 <= data.Length
      requires ind == base && |cg| == |code| && flist == [] && forall t :: 0 <= t < |cg| ==> cg[t] == -1
      modifies this`ind, this`cg, this`flist, data
      ensures ok ==> ind == Start(code, base, |code|) && LaidOut(code, base, data[..], |code|, [])
      ensures ok ==> Outside(old(data[..]), data[..], base, ind)
      ensures ok ==> CondsFit(code, base)
      ensures Room(code, base, end) && CondsFit(code, base) ==> ok
    {
      ghost var mem0 := data[..];
      var i := 0;
      while i < |code|
        invariant 0 <= i <= |code| && Emitting(code, i, mem0)
      {
        ok := RunBlock(code, i, mem0);
        if !ok { return; }
        i := i + 1;
      }
      ok := FixJumps(code, mem0);
    }
  }

  /** The memory after bytes bs went to address pos. */
  ghost function Stored(mem: seq<Byte>, pos: nat, bs: seq<Byte>): (r: seq<Byte>)
    requires pos + |bs| <= |mem|
    ensures |r| == |mem|
  {
    mem[..pos] + bs + mem[pos + |bs|..]
  }

  ghost predicate CondWritten(code: Code, base: nat, pos: nat, cond: nat, t: nat, w: nat, pend: seq<FixItem>)
    requires t <= |code|
  {
    || (Fits(pos, Start(code, base, t)) && w == CondWord(cond, pos, Start(code, base, t)))
    || (Field(w, 22, 4) == cond && FixItem(pos, t, 0) in pend)
  }

  ghost predicate JumpWritten(code: Code, base: nat, pos: nat, t: nat, w: nat, pend: seq<FixItem>)
    requires t <= |code|
  {
    w == JumpWord(pos, Start(code, base, t)) || FixItem(pos, t, COND_AL) in pend
  }

  /** Nothing but the bytes from lo up to hi has changed. */
  ghost predicate Outside(mem0: seq<Byte>, mem: seq<Byte>, lo: nat, hi: nat)
    requires |mem0| == |mem|
  {
    forall i :: 0 <= i < |mem| && !(lo <= i < hi) ==> mem[i] == mem0[i]
  }

  // ----- one block

  ghost function BranchesEnd(code: Code, base: nat, k: nat): nat
    requires k < |code|
  {
    JumpPos(code, base, k) + if AddJmp(code, k) then 4 else 0
  }

  /** The memory after block k's branch words w1 and w2. */
  ghost function AfterBranches(code: Code, base: nat, mem: seq<Byte>, k: nat, w1: nat, w2: nat): (r: seq<Byte>)
    requires k < |code| && BranchesEnd(code, base, k) <= |mem| && w1 < 0x1_0000_0000 && w2 < 0x1_0000_0000
    ensures |r| == |mem|
  {
    var m := if code[k].tail.Branch? then Stored(mem, CondPos(code, base, k), Bytes(w1)) else mem;
    if AddJmp(code, k) then Stored(m, JumpPos(code, base, k), Bytes(w2)) else m
  }

  /** The memory after block k, with w1 and w2 as its branch words. */
  ghost function AfterBlock(code: Code, base: nat, mem: seq<Byte>, k: nat, w1: nat, w2: nat): (r: seq<Byte>)
    requires k < |code| && Start(code, base, k) + Size(code, k) <= |mem| && w1 < 0x1_0000_0000 && w2 < 0x1_0000_0000
    ensures |r| == |mem|
  {
    var m := AfterBranches(code, base, Stored(mem, Start(code, base, k), code[k].body), k, w1, w2);
    if code[k].tail.Exit? then m else Stored(m, BranchesEnd(code, base, k), code[k].pool)
  }

  lemma StoredSame(mem: seq<Byte>, pos: nat, bs: seq<Byte>)
    requires pos + |bs| <= |mem|
    ensures SameBytes(mem, Stored(mem, pos, bs), 0, pos)
    ensures SameBytes(mem, Stored(mem, pos, bs), pos + |bs|, |mem|)
    ensures Stored(mem, pos, bs)[pos..pos + |bs|] == bs
  {
  }

  lemma StoredWord(mem: seq<Byte>, pos: nat, w: nat)
    requires pos + 4 <= |mem| && w < 0x1_0000_0000
    ensures ReadWord(Stored(mem, pos, Bytes(w)), pos) == w
  {
    assert Stored(mem, pos, Bytes(w)) == Put(mem, pos, w);
    ReadPut(mem, pos, w);
  }

  /** Each part of the block is where it was stored: later parts went behind it. */
  lemma AfterBlockParts(code: Code, base: nat, mem: seq<Byte>, k: nat, w1: nat, w2: nat)
    requires k < |code| && Start(code, base, k) + Size(code, k) <= |mem| && w1 < 0x1_0000_0000 && w2 < 0x1_0000_0000
    ensures var r, b, s := AfterBlock(code, base, mem, k, w1, w2), code[k], Start(code, base, k);
      && r[s..s + |b.body|] == b.body
      && (b.tail.Branch? ==> ReadWord(r, CondPos(code, base, k)) == w1)
      && (AddJmp(code, k) ==> ReadWord(r, JumpPos(code, base, k)) == w2)
      && (!b.tail.Exit? ==> r[s + Size(code, k) - |b.pool|..s + Size(code, k)] == b.pool)
      && SameBytes(mem, r, 0, s) && SameBytes(mem, r, s + Size(code, k), |mem|)
  {
    var b, s := code[k], Start(code, base, k);
    var e, cp, jp := s + Size(code, k), CondPos(code, base, k), JumpPos(code, base, k);
    var pp := if b.tail.Exit? then e else e - |b.pool|;
    var m1 := Stored(mem, s, b.body);
    var m2 := if b.tail.Branch? then Stored(m1, cp, Bytes(w1)) else m1;
    var m3 := if AddJmp(code, k) then Stored(m2, jp, Bytes(w2)) else m2;
    var m4 := if b.tail.Exit? then m3 else Stored(m3, pp, b.pool);
    StoredSame(mem, s, b.body);
    if b.tail.Branch? {
      StoredSame(m1, cp, Bytes(w1));
      StoredWord(m1, cp, w1);
    }
    if AddJmp(code, k) {
      StoredSame(m2, jp, Bytes(w2));
      StoredWord(m2, jp, w2);
    }
    if !b.tail.Exit? { StoredSame(m3, pp, b.pool); }
    Layers(mem, m1, m2, m3, m4, s, cp, jp, pp, e);
  }

  /** What one layer stored, the later ones behind it left alone. */
  lemma Layers(mem: seq<Byte>, m1: seq<Byte>, m2: seq<Byte>, m3: seq<Byte>, m4: seq<Byte>, s: nat, cp: nat, jp: nat,
      pp: nat, e: nat)
    requires s <= cp <= jp <= pp <= e <= |mem| == |m1| == |m2| == |m3| == |m4|
    requires SameBytes(mem, m1, 0, s) && SameBytes(mem, m1, cp, |mem|)
    requires SameBytes(m1, m2, 0, cp) && SameBytes(m1, m2, jp, |mem|)
    requires SameBytes(m2, m3, 0, jp) && SameBytes(m2, m3, pp, |mem|)
    requires SameBytes(m3, m4, 0, pp) && SameBytes(m3, m4, e, |mem|)
    ensures m4[s..cp] == m1[s..cp]
    ensures cp + 4 <= jp ==> ReadWord(m4, cp) == ReadWord(m2, cp)
    ensures jp + 4 <= pp ==> ReadWord(m4, jp) == ReadWord(m3, jp)
    ensures SameBytes(mem, m4, 0, s) && SameBytes(mem, m4, e, |mem|)
  {
    assert SameBytes(m1, m4, 0, cp);
    SameSlice(m1, m4, 0, cp, s, cp);
    assert SameBytes(m2, m4, 0, jp);
    if cp + 4 <= jp { ReadSame(m2, m4, 0, jp, cp); }
    if jp + 4 <= pp { ReadSame(m3, m4, 0, pp, jp); }
  }

  lemma EmitEarlier(code: Code, base: nat, mem: seq<Byte>, r: seq<Byte>, k: nat, j: nat, pend0: seq<FixItem>,
      pend: seq<FixItem>)
    requires j < k <= |code| && LaidOut(code, base, mem, k, pend0) && pend0 <= pend
    requires |r| == |mem| && SameBytes(mem, r, 0, Start(code, base, k))
    ensures Holds(code, base, r, j, pend)
  {
    assert Holds(code, base, mem, j, pend0);
    StartMonotone(code, base, j + 1, k);
    HoldsFrame(code, base, mem, r, j, pend0, pend);
  }

  /** The branch words of block k are final or pending. */
  ghost predicate WordsWritten(code: Code, base: nat, k: nat, w1: nat, w2: nat, pend: seq<FixItem>)
    requires k < |code|
  {
    var b := code[k];
    && (b.tail.Branch? ==>
          b.tail.onTrue <= |code| && CondWritten(code, base, CondPos(code, base, k), b.tail.cond, b.tail.onTrue, w1,
              pend))
    && (AddJmp(code, k) ==> b.Next() <= |code| && JumpWritten(code, base, JumpPos(code, base, k), b.Next(), w2, pend))
  }

  /** The pending jumps are the ones before and jumps of block k. */
  ghost predicate ItemsAdded(code: Code, base: nat, k: nat, pend0: seq<FixItem>, pend: seq<FixItem>)
    requires k < |code|
  {
    pend0 <= pend && forall i :: |pend0| <= i < |pend| ==> ItemOf(code, base, pend[i], k)
  }

  /** Emitting block k extends the layout by it. */
  lemma EmitStep(code: Code, base: nat, mem: seq<Byte>, k: nat, w1: nat, w2: nat, pend0: seq<FixItem>,
      pend: seq<FixItem>)
    requires k < |code| && LaidOut(code, base, mem, k, pend0) && ItemsAdded(code, base, k, pend0, pend)
    requires Start(code, base, k) + Size(code, k) <= |mem| && w1 < 0x1_0000_0000 && w2 < 0x1_0000_0000
    requires WordsWritten(code, base, k, w1, w2, pend)
    ensures LaidOut(code, base, AfterBlock(code, base, mem, k, w1, w2), k + 1, pend)
  {
    var r := AfterBlock(code, base, mem, k, w1, w2);
    AfterBlockParts(code, base, mem, k, w1, w2);
    EmitOwn(code, base, mem, k, w1, w2, pend);
    forall j | 0 <= j < k ensures Holds(code, base, r, j, pend) {
      EmitEarlier(code, base, mem, r, k, j, pend0, pend);
    }
    EmitItems(code, base, k, pend0, pend);
  }

  lemma EmitOwn(code: Code, base: nat, mem: seq<Byte>, k: nat, w1: nat, w2: nat, pend: seq<FixItem>)
    requires k < |code| && BlockWellFormed(code, k) && WordsWritten(code, base, k, w1, w2, pend)
    requires Start(code, base, k) + Size(code, k) <= |mem| && w1 < 0x1_0000_0000 && w2 < 0x1_0000_0000
    ensures Holds(code, base, AfterBlock(code, base, mem, k, w1, w2), k, pend)
  {
    AfterBlockParts(code, base, mem, k, w1, w2);
  }

  lemma EmitItems(code: Code, base: nat, k: nat, pend0: seq<FixItem>, pend: seq<FixItem>)
    requires k < |code| && ItemsAdded(code, base, k, pend0, pend)
    requires forall i :: 0 <= i < |pend0| ==> ItemKnown(code, base, pend0[i], k)
    ensures forall i :: 0 <= i < |pend| ==> ItemKnown(code, base, pend[i], k + 1)
  {
    forall i | 0 <= i < |pend| ensures ItemKnown(code, base, pend[i], k + 1) {
      if i < |pend0| {
        assert pend[i] == pend0[i] && ItemKnown(code, base, pend0[i], k);
      }
    }
  }

  lemma EmitOutside(code: Code, base: nat, mem0: seq<Byte>, mem: seq<Byte>, k: nat, w1: nat, w2: nat)
    requires k < |code| && Start(code, base, k) + Size(code, k) <= |mem| == |mem0| && w1 < 0x1_0000_0000 &&
        w2 < 0x1_0000_0000
    requires Outside(mem0, mem, base, Start(code, base, k))
    ensures Outside(mem0, AfterBlock(code, base, mem, k, w1, w2), base, Start(code, base, k) + Size(code, k))
  {
    AfterBlockParts(code, base, mem, k, w1, w2);
    StartMonotone(code, base, 0, k);
  }

  /** The code ends within the function's space. */
  ghost predicate Room(code: Code, base: nat, end: nat) {
    Start(code, base, |code|) <= end
  }

  /** encbranch accepts every conditional branch of the code. */
  ghost predicate CondsFit(code: Code, base: nat) {
    forall k :: 0 <= k < |code| && code[k].tail.Branch? ==> CondFits(code, base, k)
  }

  ghost predicate CondFits(code: Code, base: nat, k: nat)
    requires k < |code| && code[k].tail.Branch?
  {
    code[k].tail.onTrue <= |code| && Fits(CondPos(code, base, k), Start(code, base, code[k].tail.onTrue))
  }

  // ----- fixing the jumps

  lemma PendingItem(code: Code, base: nat, mem: seq<Byte>, item: FixItem, pend: seq<FixItem>)
    requires LaidOut(code, base, mem, |code|, pend) && pend != [] && item == pend[0] && base % 2 == 0
    ensures item.to < |code| && base <= item.from && item.from + 4 <= Start(code, base, |code|)
    ensures EvenApart(item.from, Start(code, base, item.to))
    ensures item.cond != COND_AL && CondsFit(code, base) ==> Fits(item.from, Start(code, base, item.to))
  {
    assert ItemKnown(code, base, pend[0], |code|);
    var k :| 0 <= k < |code| && ItemOf(code, base, item, k);
    assert Holds(code, base, mem, k, pend);
    PendingOf(code, base, item, k);
  }

  lemma PendingOf(code: Code, base: nat, item: FixItem, k: nat)
    requires WellFormed(code) && base % 2 == 0 && k < |code| && BlockWellFormed(code, k) && ItemOf(code, base, item, k)
    ensures item.to < |code| && base <= item.from && item.from + 4 <= Start(code, base, |code|)
    ensures EvenApart(item.from, Start(code, base, item.to))
    ensures item.cond != COND_AL && CondsFit(code, base) ==> Fits(item.from, Start(code, base, item.to))
  {
    ItemPlace(code, base, item, k);
    JumpsEven(code, base, k, item.to);
    StartMonotone(code, base, 0, k);
    StartMonotone(code, base, k + 1, |code|);
    if item.cond != COND_AL && CondsFit(code, base) { assert CondFits(code, base, k); }
  }

  lemma FixedWord(code: Code, base: nat, mem: seq<Byte>, item: FixItem, pend: seq<FixItem>, w: nat)
    requires LaidOut(code, base, mem, |code|, pend) && pend != [] && item == pend[0] && base % 2 == 0
    requires item.to < |code| && item.from + 4 <= |mem| && item.cond != COND_AL
    requires Fits(item.from, Start(code, base, item.to)) && EvenApart(item.from, Start(code, base, item.to))
    requires w == Patched(ReadWord(mem, item.from), item.from, Start(code, base, item.to))
    ensures w < 0x1_0000_0000
  {
    assert ItemKnown(code, base, pend[0], |code|);
    var k :| 0 <= k < |code| && ItemOf(code, base, item, k);
    assert Holds(code, base, mem, k, pend);
    FixCond(code, base, mem, item.from, code[k].tail.cond, item.to, pend);
    CondWordDecodes(code[k].tail.cond, item.from, Start(code, base, item.to));
  }

  lemma PutOutside(mem0: seq<Byte>, mem: seq<Byte>, lo: nat, hi: nat, pos: nat, w: nat)
    requires |mem0| == |mem| && pos + 4 <= |mem| && lo <= pos && pos + 4 <= hi && w < 0x1_0000_0000
    requires Outside(mem0, mem, lo, hi)
    ensures Outside(mem0, Put(mem, pos, w), lo, hi)
  {
  }

  lemma FinishedFits(code: Code, base: nat, mem: seq<Byte>)
    requires LaidOut(code, base, mem, |code|, [])
    ensures CondsFit(code, base)
  {
    forall k | 0 <= k < |code| && code[k].tail.Branch? ensures CondFits(code, base, k) {
      assert Holds(code, base, mem, k, []);
    }
  }
}
