/** Flow blocks and the block graph: the fields that the graph algorithms read and write. */
module Block {
  import opened Graphs
  import opened Sequences
  import opened Pcode

  /** The bits of an edge label. */
  datatype EdgeFlag = TreeEdge | ForwardEdge | CrossEdge | BackEdge | LoopEdge | TrueEdge | OtherFlag(bit: nat)

  /** One half of an edge.  `point` is the block at the other end, where
      the twin half sits at position `reverseIndex` of the opposite array. */
  datatype BlockEdge = BlockEdge(lab: set<EdgeFlag>, point: FlowBlock, reverseIndex: nat)

  class FlowBlock {
    var inn: seq<BlockEdge>
    var out: seq<BlockEdge>

    var index: int
    var dfnum: int
    var numdesc: int
    var immedDom: FlowBlock?

    var mark: bool
    var dead: bool
    var entryPoint: bool

    var ops: seq<PcodeOp>
    var liveGen: set<nat>
    var liveKill: set<nat>
    var liveIn: set<nat>
    var liveOut: set<nat>

    /** Set flags on out-edge i, in both halves. */
    method SetOutEdgeFlag(i: nat, flags: set<EdgeFlag>, ghost S: set<FlowBlock>)
      requires Paired(S) && this in S && i < |out|
      modifies this`out, out[i].point`inn
      ensures Paired(S)
      ensures out == old(out)[i := old(out[i]).(lab := old(out[i]).lab + flags)]
      ensures forall b :: b in S ==> SameEnds(old(b.inn), b.inn)
    {
      assert OutLinked(S, this, i);
      var bbout := out[i].point;
      var r := out[i].reverseIndex;
      out := out[i := out[i].(lab := out[i].lab + flags)];
      bbout.inn := bbout.inn[r := bbout.inn[r].(lab := bbout.inn[r].lab + flags)];
      forall x, k | x in S && 0 <= k < |x.out| ensures OutLinked(S, x, k) {
        assert old(OutLinked(S, x, k));
      }
      forall x, k | x in S && 0 <= k < |x.inn| ensures InLinked(S, x, k) {
        assert old(InLinked(S, x, k));
      }
    }

    /** Add an edge from b to this block. */
    method AddInEdge(b: FlowBlock, lab: set<EdgeFlag>, ghost S: set<FlowBlock>)
      requires Paired(S) && this in S && b in S
      modifies this`inn, b`out
      ensures Paired(S)
      ensures InEnds(S) == Appended(old(InEnds(S)), this, End(lab, b))
      ensures OutEnds(S) == Appended(old(OutEnds(S)), b, End(lab, this))
    {
      ghost var I, O := Ins(S), Outs(S);
      PairedIsMaps(S);
      AddPaired(I, O, this, b, lab);
      AddEnds(I, this, BlockEdge(lab, b, |O[b]|));
      AddEnds(O, b, BlockEdge(lab, this, |I[this]|));
      PushHalves(b, lab, S);
      PairedIsMaps(S);
    }

    method PushHalves(b: FlowBlock, lab: set<EdgeFlag>, ghost S: set<FlowBlock>)
      requires this in S && b in S
      modifies this`inn, b`out
      ensures Ins(S) == Added(old(Ins(S)), this, BlockEdge(lab, b, |old(Outs(S))[b]|))
      ensures Outs(S) == Added(old(Outs(S)), b, BlockEdge(lab, this, |old(Ins(S))[this]|))
    {
      var outrev := |b.out|;
      var brev := |inn|;
      inn := inn + [BlockEdge(lab, b, outrev)];
      b.out := b.out + [BlockEdge(lab, this, brev)];
    }

    method LowerIn(r: nat, ghost S: set<FlowBlock>)
      requires this in S && r < |inn| && inn[r].reverseIndex > 0
      modifies this`inn
      ensures var es := old(inn); Ins(S) == old(Ins(S))[this := es[r := es[r].(reverseIndex := es[r].reverseIndex - 1)]]
    {
      inn := inn[r := inn[r].(reverseIndex := inn[r].reverseIndex - 1)];
    }

    /** One turn of the loop below. */
    method MoveOutDown(slot: nat, s: nat, ghost S: set<FlowBlock>, ghost A: EdgeMap, ghost B: EdgeMap)
      requires this in S && Above(A, B, this, slot) && slot <= s && s + 1 < |A[this]| && B.Keys == S
      requires out == Shifted(A[this], slot, s) && Ins(S) == LoweredMapTo(B, this, slot, s)
      modifies this`out, S`inn
      ensures out == Shifted(A[this], slot, s + 1)
      ensures Ins(S) == LoweredMapTo(B, this, slot, s + 1)
    {
      LowerStep(A, B, this, slot, s);
      ShiftStep(A[this], slot, s);
      out := out[s := out[s + 1]];
      var p, r := out[s].point, out[s].reverseIndex;
      assert p.inn == Ins(S)[p];
      p.LowerIn(r, S);
    }

    /** The loop of half_delete_out_edge. */
    method MoveOutsDown(slot: nat, ghost S: set<FlowBlock>, ghost A: EdgeMap, ghost B: EdgeMap)
      requires this in S && slot < |out| && Above(A, B, this, slot) && A == Outs(S) && B == Ins(S)
      modifies this`out, S`inn
      ensures |out| == |A[this]| && out == Shifted(A[this], slot, |A[this]| - 1) &&
          Ins(S) == LoweredMapTo(B, this, slot, |A[this]| - 1)
    {
      var s := slot;
      LowerStart(B, this, slot);
      while s < |out| - 1
        invariant slot <= s < |out| == |A[this]|
        invariant out == Shifted(A[this], slot, s)
        invariant Ins(S) == LoweredMapTo(B, this, slot, s)
      {
        MoveOutDown(slot, s, S, A, B);
        s := s + 1;
      }
    }

    /** Drop out-edge slot; the twins of the later edges follow.  Its own twin is left dangling. */
    method HalfDeleteOutEdge(slot: nat, ghost S: set<FlowBlock>)
      requires this in S && slot < |out| && Above(Outs(S), Ins(S), this, slot)
      modifies this`out, S`inn
      ensures Outs(S) == old(Outs(S))[this := Without(old(out), slot)]
      ensures Ins(S) == LoweredMap(old(Ins(S)), this, slot)
    {
      ghost var A, B := Outs(S), Ins(S);
      MoveOutsDown(slot, S, A, B);
      ShiftEnd(A[this], slot);
      out := out[..|out| - 1];
      LowerAll(A, B, this, slot);
    }

    method LowerOut(r: nat, ghost S: set<FlowBlock>)
      requires this in S && r < |out| && out[r].reverseIndex > 0
      modifies this`out
      ensures var es := old(out);
          Outs(S) == old(Outs(S))[this := es[r := es[r].(reverseIndex := es[r].reverseIndex - 1)]]
    {
      out := out[r := out[r].(reverseIndex := out[r].reverseIndex - 1)];
    }

    /** One turn of the loop below. */
    method MoveInDown(slot: nat, s: nat, ghost S: set<FlowBlock>, ghost A: EdgeMap, ghost B: EdgeMap)
      requires this in S && Above(A, B, this, slot) && slot <= s && s + 1 < |A[this]| && B.Keys == S
      requires inn == Shifted(A[this], slot, s) && Outs(S) == LoweredMapTo(B, this, slot, s)
      modifies this`inn, S`out
      ensures inn == Shifted(A[this], slot, s + 1)
      ensures Outs(S) == LoweredMapTo(B, this, slot, s + 1)
    {
      LowerStep(A, B, this, slot, s);
      ShiftStep(A[this], slot, s);
      inn := inn[s := inn[s + 1]];
      var p, r := inn[s].point, inn[s].reverseIndex;
      assert p.out == Outs(S)[p];
      p.LowerOut(r, S);
    }

    /** The loop of half_delete_in_edge. */
    method MoveInsDown(slot: nat, ghost S: set<FlowBlock>, ghost A: EdgeMap, ghost B: EdgeMap)
      requires this in S && slot < |inn| && Above(A, B, this, slot) && A == Ins(S) && B == Outs(S)
      modifies this`inn, S`out
      ensures |inn| == |A[this]| && inn == Shifted(A[this], slot, |A[this]| - 1) &&
          Outs(S) == LoweredMapTo(B, this, slot, |A[this]| - 1)
    {
      var s := slot;
      LowerStart(B, this, slot);
      while s < |inn| - 1
        invariant slot <= s < |inn| == |A[this]|
        invariant inn == Shifted(A[this], slot, s)
        invariant Outs(S) == LoweredMapTo(B, this, slot, s)
      {
        MoveInDown(slot, s, S, A, B);
        s := s + 1;
      }
    }

    /** The same for in-edges. */
    method HalfDeleteInEdge(slot: nat, ghost S: set<FlowBlock>)
      requires this in S && slot < |inn| && Above(Ins(S), Outs(S), this, slot)
      modifies this`inn, S`out
      ensures Ins(S) == old(Ins(S))[this := Without(old(inn), slot)]
      ensures Outs(S) == LoweredMap(old(Outs(S)), this, slot)
    {
      ghost var A, B := Ins(S), Outs(S);
      MoveInsDown(slot, S, A, B);
      ShiftEnd(A[this], slot);
      inn := inn[..|inn| - 1];
      LowerAll(A, B, this, slot);
    }

    /** Remove out-edge slot, in both halves. */
    method RemoveOutEdge(slot: nat, ghost S: set<FlowBlock>)
      requires Paired(S) && this in S && slot < |out|
      modifies S`inn, S`out
      ensures Paired(S)
      ensures OneGone(old(Outs(S)), old(Ins(S)), Outs(S), Ins(S), this, slot)
    {
      ghost var I, O := Ins(S), Outs(S);
      PairedIsMaps(S);
      assert Twin(O, I, this, slot);
      var b, rev := out[slot].point, out[slot].reverseIndex;
      HalfDangling(O, I, this, slot);
      HalfDeleteOutEdge(slot, S);
      ghost var I1, O1 := Ins(S), Outs(S);
      assert b.inn == I1[b];
      b.HalfDeleteInEdge(rev, S);
      CutDangling(O1, I1, b, rev);
      CutEnds(O, I, O1, I1, Outs(S), Ins(S), this, slot);
      PairedIsMaps(S);
    }

    /** Remove in-edge slot, in both halves; its label is returned. */
    method RemoveInEdge(slot: nat, ghost S: set<FlowBlock>) returns (lab: set<EdgeFlag>)
      requires Paired(S) && this in S && slot < |inn|
      modifies S`inn, S`out
      ensures Paired(S) && lab == old(inn[slot].lab)
      ensures OneGone(old(Ins(S)), old(Outs(S)), Ins(S), Outs(S), this, slot)
    {
      ghost var I, O := Ins(S), Outs(S);
      PairedIsMaps(S);
      assert Twin(I, O, this, slot);
      var b, rev := inn[slot].point, inn[slot].reverseIndex;
      lab := inn[slot].lab;
      HalfDangling(I, O, this, slot);
      HalfDeleteInEdge(slot, S);
      ghost var I1, O1 := Ins(S), Outs(S);
      assert b.out == O1[b];
      b.HalfDeleteOutEdge(rev, S);
      CutDangling(I1, O1, b, rev);
      CutEnds(I, O, I1, O1, Ins(S), Outs(S), this, slot);
      PairedIsMaps(S);
    }

    /** The second half of replace_in_edge. */
    method Relink(num: nat, b: FlowBlock, ghost S: set<FlowBlock>)
      requires this in S && b in S && num < |inn|
      modifies this`inn, b`out
      ensures Ins(S) == old(Ins(S))[this := old(inn)[num := BlockEdge(old(inn)[num].lab, b, |old(b.out)|)]]
      ensures Outs(S) == old(Outs(S))[b := old(b.out) + [BlockEdge(old(inn)[num].lab, this, num)]]
    {
      inn := inn[num := BlockEdge(inn[num].lab, b, |b.out|)];
      b.out := b.out + [BlockEdge(inn[num].lab, this, num)];
    }

    /** Let in-edge num come from b instead: it becomes b's last out-edge. */
    method ReplaceInEdge(num: nat, b: FlowBlock, ghost S: set<FlowBlock>)
      requires Paired(S) && this in S && b in S && num < |inn|
      modifies S`inn, S`out
      ensures Paired(S)
      ensures Redirected(old(Ins(S)), old(Outs(S)), Ins(S), Outs(S), this, num, b)
    {
      ghost var I, O := Ins(S), Outs(S);
      PairedIsMaps(S);
      assert Twin(I, O, this, num);
      var oldb, rev := inn[num].point, inn[num].reverseIndex;
      HalfDangling(O, I, oldb, rev);
      oldb.HalfDeleteOutEdge(rev, S);
      ghost var I1, O1 := Ins(S), Outs(S);
      assert inn == I1[this];
      Relink(num, b, S);
      RepairDangling(O1, I1, this, num, b);
      RepairEnds(O, I, O1, I1, Outs(S), Ins(S), this, num, b);
      PairedIsMaps(S);
    }
  }

  /** Two edge arrays that differ at most in their labels. */
  ghost predicate SameEnds(es: seq<BlockEdge>, fs: seq<BlockEdge>) {
    && |es| == |fs|
    && forall k :: 0 <= k < |es| ==> fs[k].point == es[k].point && fs[k].reverseIndex == es[k].reverseIndex
  }

  class BlockGraph {
    var blist: seq<FlowBlock>
    var deadblist: seq<FlowBlock>
    var exitlist: seq<FlowBlock>

    /** Take a block without in-edges off the list of blocks. */
    method RemoveBlock(bl: FlowBlock) returns (r: Status)
      modifies this`blist, this`deadblist, bl`dead
      ensures r.Done? <==> bl.inn == []
      ensures r.Done? ==> bl.dead && blist == WithoutFirst(old(blist), bl) && deadblist == old(deadblist) + [bl]
      ensures r.Error? ==> unchanged(this) && unchanged(bl)
    {
      if |bl.inn| != 0 { return Error("only support remove block in-size is 0"); }
      bl.dead := true;
      Erase(bl);
      deadblist := deadblist + [bl];
      r := Done;
    }

    method Erase(bl: FlowBlock)
      modifies this`blist
      ensures blist == WithoutFirst(old(blist), bl)
    {
      var i := 0;
      while i < |blist|
        invariant 0 <= i <= |blist| && blist == old(blist)
        invariant WithoutFirst(blist, bl) == blist[..i] + WithoutFirst(blist[i..], bl)
      {
        if blist[i] == bl {
          blist := blist[..i] + blist[i + 1..];
          return;
        }
        i := i + 1;
      }
    }

    /** Let out-edge slot of blold leave blnew instead. */
    method MoveOutEdge(blold: FlowBlock, slot: nat, blnew: FlowBlock, ghost S: set<FlowBlock>)
      requires Paired(S) && blold in S && blnew in S && slot < |blold.out|
      modifies S`inn, S`out
      ensures Paired(S) && Twin(old(Outs(S)), old(Ins(S)), blold, slot)
      ensures Redirected(old(Ins(S)), old(Outs(S)), Ins(S), Outs(S), old(blold.out)[slot].point,
          old(blold.out)[slot].reverseIndex, blnew)
    {
      PairedIsMaps(S);
      assert Twin(Outs(S), Ins(S), blold, slot);
      var outbl := blold.out[slot].point;
      var i := blold.out[slot].reverseIndex;
      outbl.ReplaceInEdge(i, blnew, S);
    }

    /** Remove the out-edges of a block that has no in-edges. */
    method RemoveFromFlow(bl: FlowBlock, ghost S: set<FlowBlock>) returns (r: Status)
      requires Paired(S) && bl in S
      modifies S`inn, S`out
      ensures Paired(S)
      ensures r.Done? <==> old(bl.inn) == []
      ensures r.Done? ==> Detached(old(InEnds(S)), old(OutEnds(S)), InEnds(S), OutEnds(S), bl)
      ensures r.Error? ==> Ins(S) == old(Ins(S)) && Outs(S) == old(Outs(S))
    {
      if |bl.inn| > 0 { return Error("only support remove block which in-size is 0"); }
      ghost var I, O := InEnds(S), OutEnds(S);
      RemoveOuts(bl, S);
      OutsRemoved(I, O, bl, S);
      r := Done;
    }

    /** The loop of remove_from_flow. */
    method RemoveOuts(bl: FlowBlock, ghost S: set<FlowBlock>)
      requires Paired(S) && bl in S
      modifies S`inn, S`out
      ensures Paired(S) && bl.out == []
      ensures Detaching(old(InEnds(S)), old(OutEnds(S)), InEnds(S), OutEnds(S), bl)
    {
      ghost var I, O := InEnds(S), OutEnds(S);
      while |bl.out| > 0
        invariant Paired(S)
        invariant Detaching(I, O, InEnds(S), OutEnds(S), bl)
        decreases |bl.out|
      {
        RemoveLast(bl, S);
      }
    }

    method RemoveLast(bl: FlowBlock, ghost S: set<FlowBlock>)
      requires Paired(S) && bl in S && |bl.out| > 0
      modifies S`inn, S`out
      ensures Paired(S) && |bl.out| == |old(bl.out)| - 1
      ensures Detaching(old(InEnds(S)), old(OutEnds(S)), InEnds(S), OutEnds(S), bl)
    {
      ghost var I, O := Ins(S), Outs(S);
      PairedIsMaps(S);
      assert Twin(O, I, bl, |O[bl]| - 1);
      bl.RemoveOutEdge(|bl.out| - 1, S);
      DetachStep(I, O, Ins(S), Outs(S), bl);
      DetachedOuts(O, Outs(S), bl, |O[bl]| - 1);
    }

    /** Merge a block's only successor, which has no other in-edge, into the block. */
    method SpliceBlock(bl: FlowBlock, ghost S: set<FlowBlock>) returns (r: Status)
      requires Paired(S) && bl in S
      modifies this`blist, this`deadblist, S
      ensures Paired(S)
      ensures r.Done? <==> old(|bl.out| == 1 && |bl.out[0].point.inn| == 1)
      ensures r.Done? ==> Spliced(old(InEnds(S)), old(OutEnds(S)), InEnds(S), OutEnds(S), bl, old(bl.out)[0].point)
      ensures r.Done? ==> var outbl := old(bl.out)[0].point;
        outbl.dead && blist == WithoutFirst(old(blist), outbl) && deadblist == old(deadblist) + [outbl]
      ensures bl.entryPoint == old(bl.entryPoint)
      ensures r.Error? ==> unchanged(S) && unchanged(this)
    {
      var outbl: FlowBlock? := null;
      if |bl.out| == 1 {
        outbl := bl.out[0].point;
        if |outbl.inn| != 1 { outbl := null; }
      }
      if outbl == null { return Error("Can only splice block with 1 output to "); }
      var f := bl.entryPoint;
      MergeEdges(bl, outbl, S);
      r := FinishSplice(bl, outbl, f, S);
    }

    method FinishSplice(bl: FlowBlock, outbl: FlowBlock, f: bool, ghost S: set<FlowBlock>) returns (r: Status)
      requires outbl.inn == []
      modifies this`blist, this`deadblist, outbl`dead, bl`entryPoint
      ensures r.Done? && bl.entryPoint == f
      ensures Ins(S) == old(Ins(S)) && Outs(S) == old(Outs(S)) && (old(Paired(S)) ==> Paired(S))
      ensures outbl.dead && blist == WithoutFirst(old(blist), outbl) && deadblist == old(deadblist) + [outbl]
    {
      r := RemoveBlock(outbl);
      bl.entryPoint := f;
    }

    /** The edges of splice_block: the one between the blocks goes, outbl's out-edges go to bl. */
    method MergeEdges(bl: FlowBlock, outbl: FlowBlock, ghost S: set<FlowBlock>)
      requires Paired(S) && bl in S && |bl.out| == 1 && bl.out[0].point == outbl && |outbl.inn| == 1
      modifies S`inn, S`out
      ensures Paired(S) && outbl in S && outbl.inn == []
      ensures Spliced(old(InEnds(S)), old(OutEnds(S)), InEnds(S), OutEnds(S), bl, outbl)
    {
      ghost var I, O := Ins(S), Outs(S);
      PairedIsMaps(S);
      assert Twin(O, I, bl, 0);
      bl.RemoveOutEdge(0, S);
      ghost var I1, O1 := Ins(S), Outs(S);
      MergeStart(I, O, I1, O1, bl, outbl);
      MoveAll(bl, outbl, S);
      MergeEnd(EndsOf(I), EndsOf(O), EndsOf(I1), EndsOf(O1), InEnds(S), OutEnds(S), bl, outbl);
      assert |InEnds(S)[outbl]| == 0;
    }

    /** splice_block's loop: every out-edge of outbl, in order, to bl. */
    method MoveAll(bl: FlowBlock, outbl: FlowBlock, ghost S: set<FlowBlock>)
      requires Paired(S) && bl in S && outbl in S && bl.out == []
      modifies S`inn, S`out
      ensures Paired(S)
      ensures InEnds(S) == RepointedAll(old(InEnds(S)), outbl, bl)
      ensures OutEnds(S) == old(OutEnds(S))[bl := old(OutEnds(S))[outbl]][outbl := []]
    {
      MoveOuts(bl, outbl, S);
      assert OutEnds(S)[outbl] == [];
      PairedIsMaps(S);
      RepointedNone(Ins(S), Outs(S), bl, outbl);
    }

    method MoveOuts(bl: FlowBlock, outbl: FlowBlock, ghost S: set<FlowBlock>)
      requires Paired(S) && bl in S && outbl in S && bl.out == []
      modifies S`inn, S`out
      ensures Paired(S)
      ensures Moving(old(InEnds(S)), old(OutEnds(S)), InEnds(S), OutEnds(S), bl, outbl, old(OutEnds(S))[outbl], [])
    {
      ghost var I, O := InEnds(S), OutEnds(S);
      var sizeout := |outbl.out|;
      var i := 0;
      while i < sizeout
        invariant 0 <= i <= sizeout == |O[outbl]| && Paired(S)
        invariant Moving(I, O, InEnds(S), OutEnds(S), bl, outbl, O[outbl][..i], O[outbl][i..])
      {
        ghost var I1, O1 := InEnds(S), OutEnds(S);
        MoveOne(bl, outbl, S);
        MovingStep(I, O, I1, O1, InEnds(S), OutEnds(S), bl, outbl, i);
        i := i + 1;
      }
      assert O[outbl][..sizeout] == O[outbl] && O[outbl][sizeout..] == [];
    }

    method MoveOne(bl: FlowBlock, outbl: FlowBlock, ghost S: set<FlowBlock>)
      requires Paired(S) && bl in S && outbl in S && bl != outbl && OutEnds(S)[outbl] != []
      modifies S`inn, S`out
      ensures Paired(S)
      ensures RepointedAll(InEnds(S), outbl, bl) == RepointedAll(old(InEnds(S)), outbl, bl)
      ensures OutEnds(S) == var M := old(OutEnds(S)); M[bl := M[bl] + [M[outbl][0]]][outbl := M[outbl][1..]]
    {
      ghost var I, O := Ins(S), Outs(S);
      assert |EndsOf(O)[outbl]| > 0;
      MoveOutEdge(outbl, 0, bl, S);
      MoveStep(I, O, Ins(S), Outs(S), bl, outbl);
    }
  }

  function WithoutFirst<T(==)>(s: seq<T>, x: T): seq<T> {
    if s == [] then [] else if s[0] == x then s[1..] else [s[0]] + WithoutFirst(s[1..], x)
  }

  /** How a graph operation ends; an Error stands for a thrown exception. */
  datatype Status = Done | Error(message: string)

  ghost function Blocks(bl: seq<FlowBlock>): set<FlowBlock> {
    set b | b in bl
  }

  /** No block is listed twice. */
  ghost predicate Distinct(bl: seq<FlowBlock>) {
    NoRepeats(bl, |bl|)
  }

  lemma DistinctPositions(bl: seq<FlowBlock>)
    requires Distinct(bl)
    ensures forall i, j :: 0 <= i < j < |bl| ==> bl[i] != bl[j]
  {
    NoRepeatsPairs(bl, |bl|);
  }

  /** G is the graph of the blocks bl, with every block named by its position. */
  ghost predicate Represents(bl: seq<FlowBlock>, G: Graph)
    reads bl`out
  {
    && |G| == |bl|
    && Distinct(bl)
    && (forall u :: 0 <= u < |bl| ==> |bl[u].out| == |G[u]|)
    && (forall u, j :: 0 <= u < |bl| && 0 <= j < |G[u]| ==> G[u][j] < |bl| && bl[u].out[j].point == bl[G[u][j]])
  }

  /** P[v] lists the positions of the blocks at the far ends of v's in-edges. */
  ghost predicate RepresentsIn(bl: seq<FlowBlock>, P: Graph)
    reads bl`inn
  {
    && |P| == |bl|
    && Distinct(bl)
    && (forall v :: 0 <= v < |bl| ==> |bl[v].inn| == |P[v]|)
    && (forall v, k :: 0 <= v < |bl| && 0 <= k < |P[v]| ==> P[v][k] < |bl| && bl[v].inn[k].point == bl[P[v][k]])
  }

  /** The two halves of every edge name each other and carry the same label. */
  ghost predicate Paired(S: set<FlowBlock>)
    reads S`inn, S`out
  {
    && (forall b, i :: b in S && 0 <= i < |b.out| ==> OutLinked(S, b, i))
    && (forall b, i :: b in S && 0 <= i < |b.inn| ==> InLinked(S, b, i))
  }

  ghost predicate OutLinked(S: set<FlowBlock>, b: FlowBlock, i: nat)
    requires b in S && i < |b.out|
    reads S`inn, S`out
  {
    var e := b.out[i];
    && e.point in S
    && e.reverseIndex < |e.point.inn|
    && e.point.inn[e.reverseIndex] == BlockEdge(e.lab, b, i)
  }

  ghost predicate InLinked(S: set<FlowBlock>, b: FlowBlock, i: nat)
    requires b in S && i < |b.inn|
    reads S`inn, S`out
  {
    var e := b.inn[i];
    && e.point in S
    && e.reverseIndex < |e.point.out|
    && e.point.out[e.reverseIndex] == BlockEdge(e.lab, b, i)
  }

  /** The blocks bl are wired up as G says, seen from both ends: the pairing holds and
      the first n blocks have the out-edges that G lists and the in-edges that P lists. */
  ghost predicate Wired(bl: seq<FlowBlock>, G: Graph, P: Graph, n: nat)
    requires n <= |bl|
    reads bl`inn, bl`out
  {
    if n == 0 then Distinct(bl) && |G| == |P| == |bl| && Paired(Blocks(bl))
    else Wired(bl, G, P, n - 1) && BlockWired(bl, G, P, n - 1)
  }

  ghost predicate BlockWired(bl: seq<FlowBlock>, G: Graph, P: Graph, u: nat)
    requires u < |bl|
    reads bl`inn, bl`out
  {
    && |G| == |P| == |bl|
    && |bl[u].out| == |G[u]| && |bl[u].inn| == |P[u]|
    && (forall j :: 0 <= j < |G[u]| ==> G[u][j] < |bl| && bl[u].out[j].point == bl[G[u][j]])
    && (forall k :: 0 <= k < |P[u]| ==> P[u][k] < |bl| && bl[u].inn[k].point == bl[P[u][k]])
  }

  lemma {:induction false} WiredBlocks(bl: seq<FlowBlock>, G: Graph, P: Graph, n: nat)
    requires n <= |bl| && Wired(bl, G, P, n)
    ensures Distinct(bl) && |G| == |P| == |bl| && Paired(Blocks(bl))
    ensures forall u :: 0 <= u < n ==> BlockWired(bl, G, P, u)
  {
    if n > 0 { WiredBlocks(bl, G, P, n - 1); }
  }

  lemma BlocksRepresent(bl: seq<FlowBlock>, G: Graph, P: Graph)
    requires Distinct(bl) && |G| == |P| == |bl|
    requires forall u :: 0 <= u < |bl| ==> BlockWired(bl, G, P, u)
    ensures Represents(bl, G) && RepresentsIn(bl, P)
  {
    forall u | 0 <= u < |bl| ensures |bl[u].out| == |G[u]| && |bl[u].inn| == |P[u]| {
      assert BlockWired(bl, G, P, u);
    }
    forall u, j | 0 <= u < |bl| && 0 <= j < |G[u]| ensures G[u][j] < |bl| && bl[u].out[j].point == bl[G[u][j]] {
      assert BlockWired(bl, G, P, u);
    }
    forall u, k | 0 <= u < |bl| && 0 <= k < |P[u]| ensures P[u][k] < |bl| && bl[u].inn[k].point == bl[P[u][k]] {
      assert BlockWired(bl, G, P, u);
    }
  }

  lemma WiredRepresents(bl: seq<FlowBlock>, G: Graph, P: Graph)
    requires Wired(bl, G, P, |bl|)
    ensures Represents(bl, G) && RepresentsIn(bl, P) && Paired(Blocks(bl))
  {
    WiredBlocks(bl, G, P, |bl|);
    BlocksRepresent(bl, G, P);
  }

  lemma {:induction false} RepresentsWired(bl: seq<FlowBlock>, G: Graph, P: Graph, n: nat)
    requires Represents(bl, G) && RepresentsIn(bl, P) && Paired(Blocks(bl)) && n <= |bl|
    ensures Wired(bl, G, P, n)
  {
    if n > 0 { RepresentsWired(bl, G, P, n - 1); }
  }

  lemma WiredAt(bl: seq<FlowBlock>, G: Graph, P: Graph, u: nat)
    requires u < |bl| && Wired(bl, G, P, |bl|)
    ensures Distinct(bl) && |G| == |P| == |bl| && BlockWired(bl, G, P, u)
  {
    WiredBlocks(bl, G, P, |bl|);
  }

  lemma WiredSizes(bl: seq<FlowBlock>, G: Graph, P: Graph)
    requires Wired(bl, G, P, |bl|)
    ensures |G| == |P| == |bl|
    ensures forall u :: 0 <= u < |bl| ==> |bl[u].out| == |G[u]| && |bl[u].inn| == |P[u]|
    ensures forall i, j :: 0 <= i < j < |bl| ==> bl[i] != bl[j]
  {
    WiredBlocks(bl, G, P, |bl|);
    DistinctPositions(bl);
    forall u | 0 <= u < |bl| ensures |bl[u].out| == |G[u]| && |bl[u].inn| == |P[u]| {
      assert BlockWired(bl, G, P, u);
    }
  }

  // ----- the edge arrays as values

  /** What an edge array says of an edge, without the position of its twin. */
  datatype End = End(lab: set<EdgeFlag>, point: FlowBlock)

  ghost function Ends(es: seq<BlockEdge>): (r: seq<End>)
    ensures |r| == |es| && forall k :: 0 <= k < |es| ==> r[k] == End(es[k].lab, es[k].point)
  {
    seq(|es|, k requires 0 <= k < |es| => End(es[k].lab, es[k].point))
  }

  type EndMap = map<FlowBlock, seq<End>>

  ghost function EndsOf(A: EdgeMap): (M: EndMap)
    ensures M.Keys == A.Keys
  {
    map b | b in A :: Ends(A[b])
  }

  ghost function InEnds(S: set<FlowBlock>): (M: EndMap)
    reads S`inn
    ensures M.Keys == S
  {
    EndsOf(Ins(S))
  }

  ghost function OutEnds(S: set<FlowBlock>): (M: EndMap)
    reads S`out
    ensures M.Keys == S
  {
    EndsOf(Outs(S))
  }

  /** The in-edge arrays, or the out-edge arrays, of a set of blocks. */
  type EdgeMap = map<FlowBlock, seq<BlockEdge>>

  ghost function Ins(S: set<FlowBlock>): EdgeMap
    reads S`inn
  {
    map b | b in S :: b.inn
  }

  ghost function Outs(S: set<FlowBlock>): EdgeMap
    reads S`out
  {
    map b | b in S :: b.out
  }

  /** Edge k of b in one map has its twin in the other. */
  ghost predicate Twin(A: EdgeMap, B: EdgeMap, b: FlowBlock, k: nat)
    requires b in A && k < |A[b]|
  {
    var e := A[b][k];
    e.point in B && e.reverseIndex < |B[e.point]| && B[e.point][e.reverseIndex] == BlockEdge(e.lab, b, k)
  }

  ghost predicate AllTwins(A: EdgeMap, B: EdgeMap) {
    forall b, k :: b in A && 0 <= k < |A[b]| ==> Twin(A, B, b, k)
  }

  ghost predicate PairedMaps(A: EdgeMap, B: EdgeMap) {
    A.Keys == B.Keys && AllTwins(A, B) && AllTwins(B, A)
  }

  lemma PairedIsMaps(S: set<FlowBlock>)
    ensures Paired(S) <==> PairedMaps(Ins(S), Outs(S))
  {
    var I, O := Ins(S), Outs(S);
    if Paired(S) {
      forall b, k | b in I && 0 <= k < |I[b]| ensures Twin(I, O, b, k) { assert InLinked(S, b, k); }
      forall b, k | b in O && 0 <= k < |O[b]| ensures Twin(O, I, b, k) { assert OutLinked(S, b, k); }
    }
    if PairedMaps(I, O) {
      forall b, k | b in S && 0 <= k < |b.inn| ensures InLinked(S, b, k) { assert Twin(I, O, b, k); }
      forall b, k | b in S && 0 <= k < |b.out| ensures OutLinked(S, b, k) { assert Twin(O, I, b, k); }
    }
  }

  // ----- adding an edge

  ghost function Added(A: EdgeMap, a: FlowBlock, e: BlockEdge): EdgeMap
    requires a in A
  {
    A[a := A[a] + [e]]
  }

  lemma AddPaired(A: EdgeMap, B: EdgeMap, a: FlowBlock, b: FlowBlock, lab: set<EdgeFlag>)
    requires PairedMaps(A, B) && a in A && b in A
    ensures PairedMaps(Added(A, a, BlockEdge(lab, b, |B[b]|)), Added(B, b, BlockEdge(lab, a, |A[a]|)))
  {
    AddTwins(A, B, a, b, lab);
    AddTwins(B, A, b, a, lab);
  }

  lemma AddEnds(A: EdgeMap, a: FlowBlock, e: BlockEdge)
    requires a in A
    ensures EndsOf(Added(A, a, e)) == Appended(EndsOf(A), a, End(e.lab, e.point))
  {
    assert Ends(A[a] + [e]) == Ends(A[a]) + [End(e.lab, e.point)];
  }

  lemma AddTwins(A: EdgeMap, B: EdgeMap, a: FlowBlock, b: FlowBlock, lab: set<EdgeFlag>)
    requires PairedMaps(A, B) && a in A && b in A
    ensures AllTwins(Added(A, a, BlockEdge(lab, b, |B[b]|)), Added(B, b, BlockEdge(lab, a, |A[a]|)))
  {
    var A', B' := Added(A, a, BlockEdge(lab, b, |B[b]|)), Added(B, b, BlockEdge(lab, a, |A[a]|));
    forall c, k | c in A' && 0 <= k < |A'[c]| ensures Twin(A', B', c, k) {
      if k < |A[c]| { assert Twin(A, B, c, k); }
    }
  }

  // ----- deleting one half of an edge

  function LowerEdge(e: BlockEdge, b: FlowBlock, lo: nat, hi: nat): BlockEdge {
    if e.point == b && lo < e.reverseIndex <= hi then e.(reverseIndex := e.reverseIndex - 1) else e
  }

  /** The edges whose twin sits behind position lo of b, up to hi, name the position before. */
  function LoweredTo(es: seq<BlockEdge>, b: FlowBlock, lo: nat, hi: nat): (r: seq<BlockEdge>)
    ensures |r| == |es| && forall k :: 0 <= k < |es| ==> r[k] == LowerEdge(es[k], b, lo, hi)
  {
    seq(|es|, k requires 0 <= k < |es| => LowerEdge(es[k], b, lo, hi))
  }

  function Lowered(es: seq<BlockEdge>, b: FlowBlock, lo: nat): (r: seq<BlockEdge>)
    ensures |r| == |es| && forall k :: 0 <= k < |es| ==> r[k] == LowerEdge(es[k], b, lo, es[k].reverseIndex)
  {
    seq(|es|, k requires 0 <= k < |es| => LowerEdge(es[k], b, lo, es[k].reverseIndex))
  }

  /** The edges of b behind slot are linked, from both sides. */
  ghost predicate Above(A: EdgeMap, B: EdgeMap, b: FlowBlock, slot: nat) {
    && b in A
    && (forall k :: slot < k < |A[b]| ==> Twin(A, B, b, k))
    && (forall c, k :: c in B && 0 <= k < |B[c]| && B[c][k].point == b && B[c][k].reverseIndex > slot ==>
        Twin(B, A, c, k))
  }

  ghost function LoweredMapTo(B: EdgeMap, b: FlowBlock, lo: nat, hi: nat): EdgeMap {
    map c | c in B :: LoweredTo(B[c], b, lo, hi)
  }

  ghost function LoweredMap(B: EdgeMap, b: FlowBlock, lo: nat): EdgeMap {
    map c | c in B :: Lowered(B[c], b, lo)
  }

  lemma LowerStart(B: EdgeMap, b: FlowBlock, slot: nat)
    ensures LoweredMapTo(B, b, slot, slot) == B
  {
    forall c | c in B ensures LoweredTo(B[c], b, slot, slot) == B[c] {}
  }

  /** The array of a half-deleted edge after its loop has reached position s. */
  ghost function Shifted(es: seq<BlockEdge>, slot: nat, s: nat): seq<BlockEdge>
    requires slot <= s < |es|
  {
    es[..slot] + es[slot + 1..s + 1] + es[s..]
  }

  lemma ShiftStep(es: seq<BlockEdge>, slot: nat, s: nat)
    requires slot <= s && s + 1 < |es|
    ensures Shifted(es, slot, s)[s + 1] == es[s + 1]
    ensures Shifted(es, slot, s)[s := es[s + 1]] == Shifted(es, slot, s + 1)
  {
  }

  lemma ShiftEnd(es: seq<BlockEdge>, slot: nat)
    requires slot < |es|
    ensures Shifted(es, slot, |es| - 1)[..|es| - 1] == Without(es, slot)
  {
  }

  /** One turn of the loop: edge s + 1 moves to position s, and its twin follows. */
  lemma LowerStep(A: EdgeMap, B: EdgeMap, b: FlowBlock, slot: nat, s: nat)
    requires Above(A, B, b, slot) && slot <= s && s + 1 < |A[b]|
    ensures var e := A[b][s + 1]; var p, r := e.point, e.reverseIndex;
      && p in B && r < |B[p]|
      && var es := LoweredMapTo(B, b, slot, s)[p];
        es[r].reverseIndex == s + 1 &&
            LoweredMapTo(B, b, slot, s + 1) == LoweredMapTo(B, b, slot, s)[p := es[r := es[r].(reverseIndex := s)]]
  {
    assert Twin(A, B, b, s + 1);
    var e := A[b][s + 1];
    var es := LoweredTo(B[e.point], b, slot, s);
    assert LoweredTo(B[e.point], b, slot, s + 1) == es[e.reverseIndex := es[e.reverseIndex].(reverseIndex := s)] by {
      OnlyTwin(A, B, b, slot, s + 1, e.point);
    }
    forall c | c in B && c != e.point ensures LoweredTo(B[c], b, slot, s + 1) == LoweredTo(B[c], b, slot, s) {
      OnlyTwin(A, B, b, slot, s + 1, c);
    }
  }

  lemma OnlyTwin(A: EdgeMap, B: EdgeMap, b: FlowBlock, slot: nat, s: nat, c: FlowBlock)
    requires Above(A, B, b, slot) && slot < s < |A[b]| && c in B
    ensures forall k :: 0 <= k < |B[c]| && B[c][k].point == b && B[c][k].reverseIndex == s ==>
        c == A[b][s].point && k == A[b][s].reverseIndex
  {
    forall k | 0 <= k < |B[c]| && B[c][k].point == b && B[c][k].reverseIndex == s ensures c == A[b][s].point &&
        k == A[b][s].reverseIndex {
      assert Twin(B, A, c, k);
    }
  }

  lemma LowerAll(A: EdgeMap, B: EdgeMap, b: FlowBlock, slot: nat)
    requires Above(A, B, b, slot) && slot < |A[b]|
    ensures LoweredMapTo(B, b, slot, |A[b]| - 1) == LoweredMap(B, b, slot)
  {
    forall c | c in B ensures LoweredTo(B[c], b, slot, |A[b]| - 1) == Lowered(B[c], b, slot) {
      forall k | 0 <= k < |B[c]| && B[c][k].point == b && B[c][k].reverseIndex > slot
        ensures B[c][k].reverseIndex < |A[b]| {
        assert Twin(B, A, c, k);
      }
    }
  }

  /** Everything is linked, but edge rev of b in the second map has no twin and is nobody's twin. */
  ghost predicate Dangling(A: EdgeMap, B: EdgeMap, b: FlowBlock, rev: nat) {
    && A.Keys == B.Keys && b in B && rev < |B[b]|
    && AllTwins(A, B)
    && (forall c, k :: c in B && 0 <= k < |B[c]| && (c != b || k != rev) ==> Twin(B, A, c, k))
    && (forall c, k :: c in A && 0 <= k < |A[c]| ==> A[c][k].point != b || A[c][k].reverseIndex != rev)
  }

  lemma HalfDangling(A: EdgeMap, B: EdgeMap, a: FlowBlock, slot: nat)
    requires PairedMaps(A, B) && a in A && slot < |A[a]|
    ensures Above(A, B, a, slot)
    ensures var e := A[a][slot]; var A1, B1 := A[a := Without(A[a], slot)], LoweredMap(B, a, slot);
      Dangling(A1, B1, e.point, e.reverseIndex) && Above(B1, A1, e.point, e.reverseIndex)
  {
    assert Twin(A, B, a, slot);
    var e := A[a][slot];
    var A1, B1 := A[a := Without(A[a], slot)], LoweredMap(B, a, slot);
    forall c, k | c in A1 && 0 <= k < |A1[c]|
      ensures Twin(A1, B1, c, k) && (A1[c][k].point != e.point || A1[c][k].reverseIndex != e.reverseIndex)
    {
      assert Twin(A, B, c, if c == a && k >= slot then k + 1 else k);
    }
    forall c, k | c in B1 && 0 <= k < |B1[c]| && (c != e.point || k != e.reverseIndex) ensures Twin(B1, A1, c, k) {
      assert Twin(B, A, c, k);
    }
  }

  lemma CutDangling(A: EdgeMap, B: EdgeMap, b: FlowBlock, rev: nat)
    requires Dangling(A, B, b, rev)
    ensures PairedMaps(LoweredMap(A, b, rev), B[b := Without(B[b], rev)])
  {
    var A2, B2 := LoweredMap(A, b, rev), B[b := Without(B[b], rev)];
    forall c, k | c in A2 && 0 <= k < |A2[c]| ensures Twin(A2, B2, c, k) {
      assert Twin(A, B, c, k);
    }
    forall c, k | c in B2 && 0 <= k < |B2[c]| ensures Twin(B2, A2, c, k) {
      assert Twin(B, A, c, if c == b && k >= rev then k + 1 else k);
    }
  }

  lemma RepairDangling(A: EdgeMap, B: EdgeMap, t: FlowBlock, num: nat, b: FlowBlock)
    requires Dangling(A, B, t, num) && b in A
    ensures var lab := B[t][num].lab;
      PairedMaps(A[b := A[b] + [BlockEdge(lab, t, num)]], B[t := B[t][num := BlockEdge(lab, b, |A[b]|)]])
  {
    var lab := B[t][num].lab;
    var A2, B2 := A[b := A[b] + [BlockEdge(lab, t, num)]], B[t := B[t][num := BlockEdge(lab, b, |A[b]|)]];
    forall c, k | c in A2 && 0 <= k < |A2[c]| ensures Twin(A2, B2, c, k) {
      if k < |A[c]| { assert Twin(A, B, c, k); }
    }
    forall c, k | c in B2 && 0 <= k < |B2[c]| ensures Twin(B2, A2, c, k) {
      if c != t || k != num { assert Twin(B, A, c, k); }
    }
  }

  // ----- what the mutators do to the ends of the edges

  /** The edge at slot of a is gone from both maps, and nothing else has changed. */
  ghost predicate OneGone(A: EdgeMap, B: EdgeMap, A': EdgeMap, B': EdgeMap, a: FlowBlock, slot: nat)
    requires a in A && slot < |A[a]|
  {
    var e := A[a][slot];
    && e.point in B && e.reverseIndex < |B[e.point]|
    && EndsOf(A') == EndsOf(A)[a := Without(EndsOf(A)[a], slot)]
    && EndsOf(B') == EndsOf(B)[e.point := Without(EndsOf(B)[e.point], e.reverseIndex)]
  }

  /** In-edge num of t now is the last out-edge of b, and nothing else has changed. */
  ghost predicate Redirected(I: EdgeMap, O: EdgeMap, I': EdgeMap, O': EdgeMap, t: FlowBlock, num: nat, b: FlowBlock)
    requires t in I && b in O && num < |I[t]|
  {
    var e := I[t][num];
    && e.point in O && e.reverseIndex < |O[e.point]|
    && EndsOf(I') == EndsOf(I)[t := EndsOf(I)[t][num := End(e.lab, b)]]
    && EndsOf(O') == Appended(EndsOf(O)[e.point := Without(EndsOf(O)[e.point], e.reverseIndex)], b, End(e.lab, t))
  }

  ghost function Appended(M: EndMap, b: FlowBlock, e: End): EndMap
    requires b in M
  {
    M[b := M[b] + [e]]
  }

  lemma EndsLowered(A: EdgeMap, b: FlowBlock, lo: nat)
    ensures EndsOf(LoweredMap(A, b, lo)) == EndsOf(A)
  {
    forall x | x in A ensures Ends(Lowered(A[x], b, lo)) == Ends(A[x]) {}
  }

  lemma EndsWithout(A: EdgeMap, a: FlowBlock, k: nat)
    requires a in A && k < |A[a]|
    ensures EndsOf(A[a := Without(A[a], k)]) == EndsOf(A)[a := Without(EndsOf(A)[a], k)]
  {
    assert Ends(Without(A[a], k)) == Without(Ends(A[a]), k);
  }

  lemma CutEnds(A: EdgeMap, B: EdgeMap, A1: EdgeMap, B1: EdgeMap, A2: EdgeMap, B2: EdgeMap, a: FlowBlock, slot: nat)
    requires A.Keys == B.Keys && a in A && slot < |A[a]| && Twin(A, B, a, slot)
    requires A1 == A[a := Without(A[a], slot)] && B1 == LoweredMap(B, a, slot)
    requires var e := A[a][slot];
        A2 == LoweredMap(A1, e.point, e.reverseIndex) && B2 == B1[e.point := Without(B1[e.point], e.reverseIndex)]
    ensures OneGone(A, B, A2, B2, a, slot)
  {
    var e := A[a][slot];
    EndsLowered(A1, e.point, e.reverseIndex);
    EndsLowered(B, a, slot);
    EndsWithout(A, a, slot);
    EndsWithout(B1, e.point, e.reverseIndex);
  }

  lemma RepairEnds(O: EdgeMap, I: EdgeMap, O1: EdgeMap, I1: EdgeMap, O2: EdgeMap, I2: EdgeMap, t: FlowBlock, num: nat,
      b: FlowBlock)
    requires O.Keys == I.Keys && t in I && b in O && num < |I[t]| && Twin(I, O, t, num)
    requires var e := I[t][num];
      && O1 == O[e.point := Without(O[e.point], e.reverseIndex)] && I1 == LoweredMap(I, e.point, e.reverseIndex)
      && O2 == O1[b := O1[b] + [BlockEdge(e.lab, t, num)]] && I2 == I1[t := I1[t][num := BlockEdge(e.lab, b, |O1[b]|)]]
    ensures Redirected(I, O, I2, O2, t, num, b)
  {
    var e := I[t][num];
    EndsLowered(I, e.point, e.reverseIndex);
    EndsWithout(O, e.point, e.reverseIndex);
    AddEnds(O1, b, BlockEdge(e.lab, t, num));
    assert Ends(I1[t][num := BlockEdge(e.lab, b, |O1[b]|)]) == Ends(I1[t])[num := End(e.lab, b)];
  }

  // ----- removing all out-edges of a block

  /** The ends at other blocks than those in L. */
  ghost function NotAt(es: seq<End>, L: set<FlowBlock>): seq<End> {
    if es == [] then [] else
      NotAt(es[..|es| - 1], L) + if es[|es| - 1].point in L then [] else [es[|es| - 1]]
  }

  ghost function NotAtAll(M: EndMap, L: set<FlowBlock>): EndMap {
    map x | x in M :: NotAt(M[x], L)
  }

  lemma {:induction false} NotAtWithout(es: seq<End>, k: nat, L: set<FlowBlock>)
    requires k < |es| && es[k].point in L
    ensures NotAt(Without(es, k), L) == NotAt(es, L)
    decreases |es|
  {
    var n := |es| - 1;
    if k == n {
      assert Without(es, k) == es[..n];
    } else {
      assert Without(es, k)[..n - 1] == Without(es[..n], k) && Without(es, k)[n - 1] == es[n];
      NotAtWithout(es[..n], k, L);
    }
  }

  lemma {:induction false} NotAtNone(es: seq<End>, L: set<FlowBlock>)
    requires forall k :: 0 <= k < |es| ==> es[k].point !in L
    ensures NotAt(es, L) == es
  {
    if es != [] {
      NotAtNone(es[..|es| - 1], L);
      assert es == es[..|es| - 1] + [es[|es| - 1]];
    }
  }

  /** The out-edges of b are gone, at both ends; nothing else has changed. */
  ghost predicate Detached(I: EndMap, O: EndMap, I': EndMap, O': EndMap, b: FlowBlock)
  {
    I' == NotAtAll(I, {b}) && O' == O[b := []]
  }

  /** The same while some of the out-edges are left. */
  ghost predicate Detaching(I: EndMap, O: EndMap, I': EndMap, O': EndMap, b: FlowBlock) {
    NotAtAll(I', {b}) == NotAtAll(I, {b}) && O'[b := []] == O[b := []]
  }

  lemma DetachStep(I: EdgeMap, O: EdgeMap, I2: EdgeMap, O2: EdgeMap, b: FlowBlock)
    requires b in O && |O[b]| > 0 && Twin(O, I, b, |O[b]| - 1)
    requires OneGone(O, I, O2, I2, b, |O[b]| - 1)
    ensures Detaching(EndsOf(I), EndsOf(O), EndsOf(I2), EndsOf(O2), b)
  {
    var n := |O[b]| - 1;
    DetachedIns(EndsOf(I), EndsOf(I2), {b}, O[b][n].point, O[b][n].reverseIndex);
    Overwritten(EndsOf(O), b, Without(EndsOf(O)[b], n), []);
  }

  lemma OutsRemoved(I: EndMap, O: EndMap, bl: FlowBlock, S: set<FlowBlock>)
    requires Paired(S) && bl in S && bl.out == [] && Detaching(I, O, InEnds(S), OutEnds(S), bl)
    ensures Detached(I, O, InEnds(S), OutEnds(S), bl)
  {
    PairedIsMaps(S);
    DetachEnd(Ins(S), Outs(S), {bl});
    assert OutEnds(S)[bl] == [];
    assert OutEnds(S)[bl := []] == OutEnds(S);
  }

  lemma Overwritten(M: EndMap, b: FlowBlock, x: seq<End>, y: seq<End>)
    requires b in M
    ensures M[b := x][b := y] == M[b := y]
  {
  }

  lemma DetachedOuts(O: EdgeMap, O2: EdgeMap, b: FlowBlock, k: nat)
    requires b in O && k < |O[b]| && EndsOf(O2) == EndsOf(O)[b := Without(EndsOf(O)[b], k)]
    ensures b in O2 && |O2[b]| == |O[b]| - 1
  {
    assert b in EndsOf(O2) && |EndsOf(O2)[b]| == |O[b]| - 1;
  }

  lemma DetachedIns(I: EndMap, I2: EndMap, L: set<FlowBlock>, c: FlowBlock, k: nat)
    requires c in I && k < |I[c]| && I[c][k].point in L && I2 == I[c := Without(I[c], k)]
    ensures NotAtAll(I2, L) == NotAtAll(I, L)
  {
    NotAtWithout(I[c], k, L);
  }

  lemma DetachEnd(I: EdgeMap, O: EdgeMap, L: set<FlowBlock>)
    requires PairedMaps(I, O) && forall b :: b in L && b in O ==> O[b] == []
    ensures NotAtAll(EndsOf(I), L) == EndsOf(I)
  {
    forall x | x in I ensures NotAt(Ends(I[x]), L) == Ends(I[x]) {
      forall k | 0 <= k < |I[x]| ensures I[x][k].point !in L { assert Twin(I, O, x, k); }
      NotAtNone(Ends(I[x]), L);
    }
  }

  // ----- splicing

  /** Ends at b become ends at c. */
  ghost function Repointed(es: seq<End>, b: FlowBlock, c: FlowBlock): (r: seq<End>)
    ensures |r| == |es| && forall k :: 0 <= k < |es| ==> r[k] == if es[k].point == b then End(es[k].lab, c) else es[k]
  {
    seq(|es|, k requires 0 <= k < |es| => if es[k].point == b then End(es[k].lab, c) else es[k])
  }

  ghost function RepointedAll(M: EndMap, b: FlowBlock, c: FlowBlock): EndMap {
    map x | x in M :: Repointed(M[x], b, c)
  }

  /** bl has taken over outbl's out-edges in order, and outbl has no edges; where an
      in-edge came from outbl it comes from bl. */
  ghost predicate Spliced(I: EndMap, O: EndMap, I': EndMap, O': EndMap, bl: FlowBlock, outbl: FlowBlock) {
    && I' == RepointedAll(I, outbl, bl)[outbl := []]
    && O' == O[bl := if outbl in O then O[outbl] else []][outbl := []]
  }

  /** Some of the out-edges of outbl, `moved`, are bl's by now, and the others are left. */
  ghost predicate Moving(I: EndMap, O: EndMap, I': EndMap, O': EndMap, bl: FlowBlock, outbl: FlowBlock,
      moved: seq<End>, left: seq<End>) {
    && RepointedAll(I', outbl, bl) == RepointedAll(I, outbl, bl)
    && O' == O[bl := moved][outbl := left]
  }

  lemma MovingStep(I: EndMap, O: EndMap, I1: EndMap, O1: EndMap, I2: EndMap, O2: EndMap, bl: FlowBlock,
      outbl: FlowBlock, i: nat)
    requires bl in O && outbl in O && bl != outbl && i < |O[outbl]|
    requires Moving(I, O, I1, O1, bl, outbl, O[outbl][..i], O[outbl][i..])
    requires RepointedAll(I2, outbl, bl) == RepointedAll(I1, outbl, bl)
    requires O2 == O1[bl := O1[bl] + [O1[outbl][0]]][outbl := O1[outbl][1..]]
    ensures Moving(I, O, I2, O2, bl, outbl, O[outbl][..i + 1], O[outbl][i + 1..])
  {
    var es := O[outbl];
    assert es[..i] + [es[i]] == es[..i + 1] && es[i..][1..] == es[i + 1..];
  }

  lemma RepointedOne(es: seq<End>, k: nat, b: FlowBlock, c: FlowBlock)
    requires k < |es| && es[k].point == b
    ensures Repointed(es[k := End(es[k].lab, c)], b, c) == Repointed(es, b, c)
  {
  }

  lemma MoveStep(I: EdgeMap, O: EdgeMap, I2: EdgeMap, O2: EdgeMap, bl: FlowBlock, outbl: FlowBlock)
    requires bl in O && outbl in O && bl != outbl && |O[outbl]| > 0 && Twin(O, I, outbl, 0)
    requires var e := O[outbl][0]; Redirected(I, O, I2, O2, e.point, e.reverseIndex, bl)
    ensures RepointedAll(EndsOf(I2), outbl, bl) == RepointedAll(EndsOf(I), outbl, bl)
    ensures EndsOf(O2) == EndsOf(O)[bl := EndsOf(O)[bl] + [EndsOf(O)[outbl][0]]][outbl := EndsOf(O)[outbl][1..]]
  {
    var e := O[outbl][0];
    RepointedOne(EndsOf(I)[e.point], e.reverseIndex, outbl, bl);
    assert Without(EndsOf(O)[outbl], 0) == EndsOf(O)[outbl][1..];
  }

  lemma RepointedNone(I: EdgeMap, O: EdgeMap, bl: FlowBlock, outbl: FlowBlock)
    requires PairedMaps(I, O) && outbl in O && O[outbl] == []
    ensures RepointedAll(EndsOf(I), outbl, bl) == EndsOf(I)
  {
    forall x | x in I ensures Repointed(Ends(I[x]), outbl, bl) == Ends(I[x]) {
      forall k | 0 <= k < |I[x]| ensures I[x][k].point != outbl { assert Twin(I, O, x, k); }
    }
  }

  lemma MergeStart(I: EdgeMap, O: EdgeMap, I1: EdgeMap, O1: EdgeMap, bl: FlowBlock, outbl: FlowBlock)
    requires bl in O && outbl in I && |O[bl]| == 1 && O[bl][0].point == outbl && |I[outbl]| == 1 && O.Keys == I.Keys
    requires OneGone(O, I, O1, I1, bl, 0)
    ensures bl in O1 && O1[bl] == [] && outbl in I1 && I1[outbl] == []
    ensures EndsOf(O1) == EndsOf(O)[bl := []] && EndsOf(I1) == EndsOf(I)[outbl := []]
  {
    assert |EndsOf(O1)[bl]| == 0 && |EndsOf(I1)[outbl]| == 0;
  }

  lemma MergeEnd(I: EndMap, O: EndMap, I1: EndMap, O1: EndMap, I2: EndMap, O2: EndMap, bl: FlowBlock, outbl: FlowBlock)
    requires bl in O && outbl in O && outbl in I
    requires O1 == O[bl := []] && I1 == I[outbl := []]
    requires I2 == RepointedAll(I1, outbl, bl)
    requires O2 == O1[bl := O1[outbl]][outbl := []]
    ensures Spliced(I, O, I2, O2, bl, outbl) && outbl in I2 && I2[outbl] == []
  {
    RepointedUpdate(I, outbl, bl);
  }

  lemma RepointedUpdate(I: EndMap, b: FlowBlock, c: FlowBlock)
    requires b in I
    ensures RepointedAll(I[b := []], b, c) == RepointedAll(I, b, c)[b := []]
  {
    assert Repointed([], b, c) == [];
  }
}
