/** Collecting the blocks that the entry reaches, and removing the others. */
module Reachability {
  import opened Sequences
  import opened Block

  // ----- reachability over blocks

  /** Taking the out-edges that `path` numbers leads from a to b. */
  ghost predicate Leads(O: EdgeMap, a: FlowBlock, path: seq<nat>, b: FlowBlock)
    decreases |path|
  {
    if path == [] then a == b
    else a in O && path[0] < |O[a]| && Leads(O, O[a][path[0]].point, path[1..], b)
  }

  ghost predicate BlockReaches(O: EdgeMap, a: FlowBlock, b: FlowBlock) {
    exists path :: Leads(O, a, path, b)
  }

  lemma {:induction false} LeadsStep(O: EdgeMap, a: FlowBlock, path: seq<nat>, b: FlowBlock, k: nat)
    requires Leads(O, a, path, b) && b in O && k < |O[b]|
    ensures Leads(O, a, path + [k], O[b][k].point)
    decreases |path|
  {
    var q := path + [k];
    if path == [] {
      assert q[1..] == [];
    } else {
      assert q[0] == path[0] && q[1..] == path[1..] + [k];
      LeadsStep(O, O[a][path[0]].point, path[1..], b, k);
    }
  }

  lemma BlockReachesStep(O: EdgeMap, a: FlowBlock, b: FlowBlock, k: nat)
    requires BlockReaches(O, a, b) && b in O && k < |O[b]|
    ensures BlockReaches(O, a, O[b][k].point)
  {
    var path :| Leads(O, a, path, b);
    LeadsStep(O, a, path, b, k);
  }

  lemma BlockReachesSelf(O: EdgeMap, a: FlowBlock)
    ensures BlockReaches(O, a, a)
  {
    assert Leads(O, a, [], a);
  }

  ghost predicate ClosedSet(O: EdgeMap, R: set<FlowBlock>) {
    forall b, k :: b in R && b in O && 0 <= k < |O[b]| ==> O[b][k].point in R
  }

  lemma {:induction false} StaysIn(O: EdgeMap, R: set<FlowBlock>, a: FlowBlock, path: seq<nat>, b: FlowBlock)
    requires ClosedSet(O, R) && a in R && Leads(O, a, path, b)
    ensures b in R
    decreases |path|
  {
    if path != [] { StaysIn(O, R, O[a][path[0]].point, path[1..], b); }
  }

  /** The blocks of bl that `from` does not reach, in order. */
  ghost function Unreached(bl: seq<FlowBlock>, O: EdgeMap, from: FlowBlock): seq<FlowBlock> {
    if bl == [] then [] else Unreached(bl[..|bl| - 1], O, from) + if BlockReaches(O, from, bl[|bl| - 1]) then []
        else [bl[|bl| - 1]]
  }

  /** The elements outside of X, in order. */
  ghost function Sift(bl: seq<FlowBlock>, X: set<FlowBlock>): seq<FlowBlock> {
    if bl == [] then [] else Sift(bl[..|bl| - 1], X) + if bl[|bl| - 1] in X then [] else [bl[|bl| - 1]]
  }

  // ----- collect_reachable

  ghost function Dead(S: set<FlowBlock>): set<FlowBlock>
    reads S`dead
  {
    set b | b in S && b.dead
  }

  ghost function Marked(S: set<FlowBlock>): set<FlowBlock>
    reads S`mark
  {
    set b | b in S && b.mark
  }

  method SetMark(b: FlowBlock, value: bool, ghost S: set<FlowBlock>)
    requires b in S
    modifies b`mark
    ensures Marked(S) == if value then old(Marked(S)) + {b} else old(Marked(S)) - {b}
  {
    b.mark := value;
  }

  /** All edges stay among the blocks. */
  ghost predicate Closed(O: EdgeMap) {
    ClosedSet(O, O.Keys)
  }

  /** res lists blocks that bl reaches, without repetition; the first `total` of them are expanded. */
  ghost predicate Collected(O: EdgeMap, bl: FlowBlock, res: seq<FlowBlock>, total: nat) {
    && total <= |res| && Distinct(res) && bl in res
    && (forall b :: b in res ==> b in O && BlockReaches(O, bl, b))
    && (forall i, k :: 0 <= i < total && 0 <= k < |O[res[i]]| ==> O[res[i]][k].point in res)
  }

  lemma CollectOne(O: EdgeMap, bl: FlowBlock, res: seq<FlowBlock>, total: nat, b: FlowBlock, k: nat)
    requires Collected(O, bl, res, total) && Closed(O) && b in res && k < |O[b]| && O[b][k].point !in res
    ensures Collected(O, bl, res + [O[b][k].point], total) &&
        Blocks(res + [O[b][k].point]) == Blocks(res) + {O[b][k].point}
  {
    var c := O[b][k].point;
    BlockReachesStep(O, bl, b, k);
    DistinctPositions(res);
    NoRepeatsPairs(res + [c], |res| + 1);
  }

  lemma CollectedAll(O: EdgeMap, bl: FlowBlock, res: seq<FlowBlock>)
    requires Collected(O, bl, res, |res|)
    ensures forall b :: b in O || b in res ==> (b in res <==> BlockReaches(O, bl, b))
  {
    forall b | (b in O || b in res) && BlockReaches(O, bl, b) ensures b in res {
      var path :| Leads(O, bl, path, b);
      assert ClosedSet(O, Blocks(res)) by {
        forall c, k | c in Blocks(res) && c in O && 0 <= k < |O[c]| ensures O[c][k].point in Blocks(res) {
          var i :| 0 <= i < |res| && res[i] == c;
        }
      }
      StaysIn(O, Blocks(res), bl, path, b);
    }
  }

  lemma {:induction false} DistinctCount(bl: seq<FlowBlock>, S: set<FlowBlock>)
    requires Distinct(bl) && Blocks(bl) <= S
    ensures |bl| <= |S|
    decreases |bl|
  {
    if bl != [] {
      var n := |bl| - 1;
      DistinctPositions(bl);
      NoRepeatsPairs(bl[..n], n);
      assert Blocks(bl[..n]) <= S - {bl[n]};
      DistinctCount(bl[..n], S - {bl[n]});
    }
  }

  /** The successors of one block. */
  method Expand(blk: FlowBlock, res0: seq<FlowBlock>, total: nat, ghost bl: FlowBlock, ghost S: set<FlowBlock>)
      returns (res: seq<FlowBlock>)
    requires total < |res0| && blk == res0[total] && Collected(Outs(S), bl, res0, total) && Closed(Outs(S))
    requires Marked(S) == Blocks(res0)
    modifies S`mark
    ensures Collected(Outs(S), bl, res, total + 1) && Marked(S) == Blocks(res) && |res| >= |res0| &&
        res[..|res0|] == res0
  {
    ghost var O := Outs(S);
    res := res0;
    var j := 0;
    while j < |blk.out|
      invariant 0 <= j <= |blk.out| == |O[blk]| && Expanding(O, bl, res0, res, total, blk, j)
      invariant Marked(S) == Blocks(res)
    {
      var blk2 := blk.out[j].point;
      ExpandNext(O, bl, res0, res, total, blk, j);
      assert blk2.mark <==> blk2 in Marked(S);
      if !blk2.mark {
        SetMark(blk2, true, S);
        res := res + [blk2];
      }
      j := j + 1;
    }
    Expanded(O, bl, res, total, blk, res0);
  }

  /** The first j successors of blk are listed behind what was listed before. */
  ghost predicate Expanding(O: EdgeMap, bl: FlowBlock, res0: seq<FlowBlock>, res: seq<FlowBlock>, total: nat,
      blk: FlowBlock, j: nat) {
    && Collected(O, bl, res, total) && res0 <= res && blk in res0 && blk in O && j <= |O[blk]|
    && forall k :: 0 <= k < j ==> O[blk][k].point in res
  }

  lemma ExpandNext(O: EdgeMap, bl: FlowBlock, res0: seq<FlowBlock>, res: seq<FlowBlock>, total: nat, blk: FlowBlock,
      j: nat)
    requires Expanding(O, bl, res0, res, total, blk, j) && Closed(O) && j < |O[blk]|
    ensures var c := O[blk][j].point;
      && c in O.Keys && (c in res <==> c in Blocks(res))
      && Expanding(O, bl, res0, if c in res then res else res + [c], total, blk, j + 1)
      && (c !in res ==> Blocks(res + [c]) == Blocks(res) + {c})
  {
    if O[blk][j].point !in res { CollectOne(O, bl, res, total, blk, j); }
  }

  lemma Expanded(O: EdgeMap, bl: FlowBlock, res: seq<FlowBlock>, total: nat, blk: FlowBlock, res0: seq<FlowBlock>)
    requires Collected(O, bl, res, total) && total < |res0| <= |res| && res[..|res0|] == res0 && res0[total] == blk
    requires blk in O && forall k :: 0 <= k < |O[blk]| ==> O[blk][k].point in res
    ensures Collected(O, bl, res, total + 1)
  {
    assert res[total] == res[..|res0|][total];
  }

  /** The worklist of collect_reachable. */
  method Collect(bl: FlowBlock, ghost S: set<FlowBlock>) returns (res: seq<FlowBlock>)
    requires bl in S && Closed(Outs(S)) && Marked(S) == {}
    modifies S`mark
    ensures Distinct(res) && Blocks(res) <= S && Marked(S) == Blocks(res)
    ensures forall b :: b in S ==> (b in res <==> BlockReaches(Outs(S), bl, b))
  {
    ghost var O := Outs(S);
    SetMark(bl, true, S);
    res := [bl];
    BlockReachesSelf(O, bl);
    assert NoRepeats(res, 0);
    var total := 0;
    while total < |res|
      invariant 0 <= total <= |res| && Collected(O, bl, res, total)
      invariant Marked(S) == Blocks(res)
      decreases |S| - total
    {
      DistinctCount(res, S);
      var blk := res[total];
      res := Expand(blk, res, total, bl, S);
      total := total + 1;
    }
    CollectedAll(O, bl, res);
  }

  lemma BlocksNext(bl: seq<FlowBlock>, i: nat)
    requires i < |bl|
    ensures bl[..i + 1][..i] == bl[..i] && Blocks(bl[..i + 1]) == Blocks(bl[..i]) + {bl[i]}
  {
    assert bl[..i + 1] == bl[..i] + [bl[i]];
  }

  /** collect_reachable: the blocks that bl reaches, or the listed ones that it does not. */
  method CollectReachable(g: BlockGraph, bl: FlowBlock, un: bool, ghost S: set<FlowBlock>) returns (res: seq<FlowBlock>)
    requires S == Blocks(g.blist) && Distinct(g.blist) && bl in S && Closed(Outs(S)) && Marked(S) == {}
    modifies S`mark
    ensures Marked(S) == {}
    ensures un ==> res == Unreached(g.blist, Outs(S), bl)
    ensures !un ==> Distinct(res) && forall b :: b in res <==> b in S && BlockReaches(Outs(S), bl, b)
  {
    var found := Collect(bl, S);
    if un {
      res := SweepUnmarked(g.blist, found, bl, S);
    } else {
      res := found;
      var i := 0;
      while i < |res|
        invariant 0 <= i <= |res| && Marked(S) == Blocks(res) - Blocks(res[..i])
      {
        BlocksNext(res, i);
        SetMark(res[i], false, S);
        i := i + 1;
      }
      assert res[..i] == res;
    }
  }

  method SweepUnmarked(blist: seq<FlowBlock>, ghost found: seq<FlowBlock>, ghost bl: FlowBlock,
      ghost S: set<FlowBlock>) returns (res: seq<FlowBlock>)
    requires S == Blocks(blist) && Distinct(blist) && Marked(S) == Blocks(found) && Blocks(found) <= S
    requires forall b :: b in S ==> (b in found <==> BlockReaches(Outs(S), bl, b))
    modifies S`mark
    ensures Marked(S) == {} && res == Unreached(blist, Outs(S), bl)
  {
    res := [];
    var i := 0;
    while i < |blist|
      invariant 0 <= i <= |blist| && Marked(S) == Blocks(found) - Blocks(blist[..i])
      invariant res == Unreached(blist[..i], Outs(S), bl)
    {
      var blk := blist[i];
      BlocksNext(blist, i);
      DistinctPositions(blist);
      assert blk in S && (blk.mark <==> blk in Marked(S)) && blk !in blist[..i];
      if blk.mark {
        SetMark(blk, false, S);
      } else {
        res := res + [blk];
      }
      i := i + 1;
    }
    assert blist[..i] == blist;
  }

  // ----- removing the edges of the unreached blocks

  lemma {:induction false} UnreachedIs(bl: seq<FlowBlock>, O: EdgeMap, from: FlowBlock)
    requires Distinct(bl)
    ensures var u := Unreached(bl, O, from);
      Distinct(u) && forall b :: b in u <==> b in bl && !BlockReaches(O, from, b)
    decreases |bl|
  {
    if bl != [] {
      var n := |bl| - 1;
      DistinctPositions(bl);
      NoRepeatsPairs(bl[..n], n);
      UnreachedIs(bl[..n], O, from);
      var u := Unreached(bl[..n], O, from);
      DistinctPositions(u);
      if BlockReaches(O, from, bl[n]) {
        assert u + [] == u;
      } else {
        NoRepeatsPairs(u + [bl[n]], |u| + 1);
      }
      assert bl == bl[..n] + [bl[n]];
    }
  }

  /** The out-edges of the blocks outside of L. */
  ghost function Masked(O: EndMap, L: set<FlowBlock>): EndMap {
    map x | x in O :: if x in L then [] else O[x]
  }

  /** Out-edges of blocks in L are gone, at both ends; other out-edges are as before. */
  ghost predicate Cleared(I: EndMap, O: EndMap, I': EndMap, O': EndMap, L: set<FlowBlock>) {
    NotAtAll(I', L) == NotAtAll(I, L) && Masked(O', L) == Masked(O, L)
  }

  /** remove_edge: the first edge from begin to end. */
  method RemoveEdge(begin: FlowBlock, end: FlowBlock, ghost S: set<FlowBlock>)
      returns (lab: set<EdgeFlag>, ghost slot: nat)
    requires Paired(S) && end in S && exists k :: 0 <= k < |end.inn| && end.inn[k].point == begin
    modifies S`inn, S`out
    ensures Paired(S) && slot < |old(end.inn)| && old(end.inn)[slot].point == begin && lab == old(end.inn)[slot].lab
    ensures forall k :: 0 <= k < slot ==> old(end.inn)[k].point != begin
    ensures OneGone(old(Ins(S)), old(Outs(S)), Ins(S), Outs(S), end, slot)
  {
    var i := 0;
    while end.inn[i].point != begin
      invariant 0 <= i < |end.inn|
      invariant forall k :: 0 <= k < i ==> end.inn[k].point != begin
      invariant exists k :: i <= k < |end.inn| && end.inn[k].point == begin
      decreases |end.inn| - i
    {
      i := i + 1;
    }
    slot := i;
    lab := end.RemoveInEdge(i, S);
  }

  /** branch_remove_internal, as far as the block graph goes: an edge to the block that out-edge
      num leads to is removed, the first one among that block's in-edges. */
  method BranchRemove(bb: FlowBlock, num: nat, ghost L: set<FlowBlock>, ghost S: set<FlowBlock>)
      returns (ghost slot: nat)
    requires Paired(S) && bb in S && num < |bb.out| && bb in L
    modifies S`inn, S`out
    ensures var es := old(bb.out[num].point.inn);
      && old(bb.out)[num].point in S && slot < |es| && es[slot].point == bb
      && forall k :: 0 <= k < slot ==> es[k].point != bb
    ensures OneGone(old(Ins(S)), old(Outs(S)), Ins(S), Outs(S), old(bb.out)[num].point, slot)
    ensures Paired(S) && |bb.out| == |old(bb.out)| - 1
    ensures Cleared(old(InEnds(S)), old(OutEnds(S)), InEnds(S), OutEnds(S), L)
    ensures forall x :: x in S && x != bb ==> OutEnds(S)[x] == old(OutEnds(S))[x]
  {
    ghost var I, O := Ins(S), Outs(S);
    PairedIsMaps(S);
    assert Twin(O, I, bb, num);
    var bbout := bb.out[num].point;
    assert bbout.inn[bb.out[num].reverseIndex].point == bb;
    ghost var lab;
    lab, slot := RemoveEdge(bb, bbout, S);
    assert Twin(I, O, bbout, slot);
    BranchRemoved(I, O, Ins(S), Outs(S), bb, bbout, slot, L);
    assert Outs(S)[bb] == bb.out;
  }

  lemma BranchRemoved(I: EdgeMap, O: EdgeMap, I2: EdgeMap, O2: EdgeMap, b: FlowBlock, c: FlowBlock, slot: nat,
      L: set<FlowBlock>)
    requires b in O && c in I && slot < |I[c]| && I[c][slot].point == b && Twin(I, O, c, slot) && b in L
    requires OneGone(I, O, I2, O2, c, slot)
    ensures Cleared(EndsOf(I), EndsOf(O), EndsOf(I2), EndsOf(O2), L)
    ensures b in O2 && |O2[b]| == |O[b]| - 1
    ensures forall x :: x in O && x != b ==> EndsOf(O2)[x] == EndsOf(O)[x]
  {
    DetachedIns(EndsOf(I), EndsOf(I2), L, c, slot);
    DetachedOuts(O, O2, b, I[c][slot].reverseIndex);
    MaskedUpdate(EndsOf(O), b, Without(EndsOf(O)[b], I[c][slot].reverseIndex), L);
  }

  lemma MaskedUpdate(O: EndMap, b: FlowBlock, es: seq<End>, L: set<FlowBlock>)
    requires b in O && b in L
    ensures Masked(O[b := es], L) == Masked(O, L)
  {
  }

  /** The first half of remove_unreachable_blocks: the out-edges of the blocks in list. */
  method ClearBranches(list: seq<FlowBlock>, ghost S: set<FlowBlock>)
    requires Paired(S) && Blocks(list) <= S
    modifies S`inn, S`out
    ensures Paired(S)
    ensures InEnds(S) == NotAtAll(old(InEnds(S)), Blocks(list))
    ensures OutEnds(S) == Masked(old(OutEnds(S)), Blocks(list))
    ensures Marked(S) == old(Marked(S)) && Dead(S) == old(Dead(S))
  {
    ClearMarked(list, S);
  }

  method ClearMarked(list: seq<FlowBlock>, ghost S: set<FlowBlock>)
    requires Paired(S) && Blocks(list) <= S
    modifies S`inn, S`out
    ensures Paired(S)
    ensures InEnds(S) == NotAtAll(old(InEnds(S)), Blocks(list))
    ensures OutEnds(S) == Masked(old(OutEnds(S)), Blocks(list))
    ensures Marked(S) == old(Marked(S))
  {
    ClearLoop(list, S);
  }

  method ClearLoop(list: seq<FlowBlock>, ghost S: set<FlowBlock>)
    requires Paired(S) && Blocks(list) <= S
    modifies S`inn, S`out
    ensures Paired(S)
    ensures InEnds(S) == NotAtAll(old(InEnds(S)), Blocks(list))
    ensures OutEnds(S) == Masked(old(OutEnds(S)), Blocks(list))
  {
    ghost var I, O, L := InEnds(S), OutEnds(S), Blocks(list);
    var i := 0;
    while i < |list|
      invariant 0 <= i <= |list| && Paired(S)
      invariant Cleared(I, O, InEnds(S), OutEnds(S), L)
      invariant EmptyTo(OutEnds(S), list, i)
    {
      ClearBranchesOf(list, i, L, S);
      i := i + 1;
    }
    AllCleared(list, L, S);
  }

  /** The first n blocks of the list have no out-edges. */
  ghost predicate EmptyTo(O: EndMap, list: seq<FlowBlock>, n: nat) {
    forall k :: 0 <= k < n && k < |list| ==> list[k] in O && O[list[k]] == []
  }

  lemma AllCleared(list: seq<FlowBlock>, L: set<FlowBlock>, S: set<FlowBlock>)
    requires Paired(S) && L == Blocks(list) <= S && EmptyTo(OutEnds(S), list, |list|)
    ensures NotAtAll(InEnds(S), L) == InEnds(S) && Masked(OutEnds(S), L) == OutEnds(S)
  {
    PairedIsMaps(S);
    forall b | b in L ensures OutEnds(S)[b] == [] && Outs(S)[b] == [] {
      var k :| 0 <= k < |list| && list[k] == b;
      assert |OutEnds(S)[b]| == 0;
    }
    DetachEnd(Ins(S), Outs(S), L);
  }

  method ClearBranchesOf(list: seq<FlowBlock>, i: nat, ghost L: set<FlowBlock>, ghost S: set<FlowBlock>)
    requires Paired(S) && i < |list| && L == Blocks(list) <= S && EmptyTo(OutEnds(S), list, i)
    modifies S`inn, S`out
    ensures Paired(S) && Cleared(old(InEnds(S)), old(OutEnds(S)), InEnds(S), OutEnds(S), L)
    ensures EmptyTo(OutEnds(S), list, i + 1)
  {
    ghost var I, O := InEnds(S), OutEnds(S);
    var bb := list[i];
    assert bb in L;
    while |bb.out| > 0
      invariant Paired(S) && Cleared(I, O, InEnds(S), OutEnds(S), L)
      invariant EmptyTo(OutEnds(S), list, i)
      decreases |bb.out|
    {
      assert |OutEnds(S)[bb]| == |bb.out|;
      ghost var slot := BranchRemove(bb, 0, L, S);
    }
    assert |OutEnds(S)[bb]| == |bb.out|;
  }

  // ----- removing the unreached blocks

  lemma {:induction false} SiftIs(bl: seq<FlowBlock>, X: set<FlowBlock>)
    requires Distinct(bl)
    ensures Distinct(Sift(bl, X)) && forall b :: b in Sift(bl, X) <==> b in bl && b !in X
    decreases |bl|
  {
    if bl != [] {
      var n := |bl| - 1;
      DistinctPositions(bl);
      NoRepeatsPairs(bl[..n], n);
      SiftIs(bl[..n], X);
      var u := Sift(bl[..n], X);
      DistinctPositions(u);
      if bl[n] in X {
        assert u + [] == u;
      } else {
        NoRepeatsPairs(u + [bl[n]], |u| + 1);
      }
      assert bl == bl[..n] + [bl[n]];
    }
  }

  lemma {:induction false} WithoutFirstLast<T>(s: seq<T>, y: T, x: T)
    ensures WithoutFirst(s + [y], x) == if x in s then WithoutFirst(s, x) + [y] else if x == y then s else s + [y]
  {
    var t := s + [y];
    if s == [] {
      assert t[1..] == [];
    } else {
      assert t[0] == s[0] && t[1..] == s[1..] + [y];
      WithoutFirstLast(s[1..], y, x);
    }
  }

  /** Removing one more block from a sifted list. */
  lemma {:induction false} SiftNext(bl: seq<FlowBlock>, X: set<FlowBlock>, x: FlowBlock)
    requires Distinct(bl) && x !in X
    ensures WithoutFirst(Sift(bl, X), x) == Sift(bl, X + {x})
    decreases |bl|
  {
    if bl != [] {
      var n := |bl| - 1;
      DistinctPositions(bl);
      NoRepeatsPairs(bl[..n], n);
      SiftNext(bl[..n], X, x);
      var u := Sift(bl[..n], X);
      SiftIs(bl[..n], X);
      if bl[n] in X {
        assert u + [] == u;
      } else {
        WithoutFirstLast(u, bl[n], x);
        if x !in u { WithoutFirstNone(u, x); }
      }
    }
  }

  lemma SiftStep(bl: seq<FlowBlock>, dl: seq<FlowBlock>, list: seq<FlowBlock>, i: nat)
    requires Distinct(bl) && Distinct(list) && i < |list|
    ensures WithoutFirst(Sift(bl, Blocks(list[..i])), list[i]) == Sift(bl, Blocks(list[..i + 1]))
    ensures dl + list[..i] + [list[i]] == dl + list[..i + 1]
  {
    BlocksNext(list, i);
    DistinctPositions(list);
    SiftNext(bl, Blocks(list[..i]), list[i]);
  }

  lemma {:induction false} WithoutFirstNone<T>(s: seq<T>, x: T)
    requires x !in s
    ensures WithoutFirst(s, x) == s
  {
    if s != [] { WithoutFirstNone(s[1..], x); }
  }

  lemma {:induction false} SiftNothing(bl: seq<FlowBlock>)
    ensures Sift(bl, {}) == bl
    decreases |bl|
  {
    if bl != [] { SiftNothing(bl[..|bl| - 1]); }
  }

  /** The first n blocks of the list have no in-edges. */
  ghost predicate Isolated(I: EndMap, O: EndMap, list: seq<FlowBlock>) {
    EmptyTo(I, list, |list|) && EmptyTo(O, list, |list|)
  }

  /** Remove a block that has no edges left. */
  method RemoveNext(g: BlockGraph, bb: FlowBlock, ghost S: set<FlowBlock>)
    requires Paired(S) && bb in S && OutEnds(S)[bb] == [] && InEnds(S)[bb] == []
    modifies S`inn, S`out, g`blist, g`deadblist, bb`dead
    ensures Paired(S) && InEnds(S) == old(InEnds(S)) && OutEnds(S) == old(OutEnds(S))
    ensures Marked(S) == old(Marked(S)) && Dead(S) == old(Dead(S)) + {bb}
    ensures g.blist == WithoutFirst(old(g.blist), bb) && g.deadblist == old(g.deadblist) + [bb]
  {
    ghost var I, O := Ins(S), Outs(S);
    assert |InEnds(S)[bb]| == |bb.inn| && |OutEnds(S)[bb]| == |bb.out|;
    PairedIsMaps(S);
    var r := BlockRemove(g, bb, S);
    NothingDetached(I, O, InEnds(S), OutEnds(S), bb);
  }

  lemma NothingDetached(I: EdgeMap, O: EdgeMap, I': EndMap, O': EndMap, b: FlowBlock)
    requires PairedMaps(I, O) && b in O && O[b] == [] && Detached(EndsOf(I), EndsOf(O), I', O', b)
    ensures I' == EndsOf(I) && O' == EndsOf(O)
  {
    DetachEnd(I, O, {b});
  }

  /** block_remove_internal, as far as the block graph goes: exactly the block's out-edges go. */
  method BlockRemove(g: BlockGraph, bb: FlowBlock, ghost S: set<FlowBlock>) returns (r: Status)
    requires Paired(S) && bb in S
    modifies S`inn, S`out, g`blist, g`deadblist, bb`dead
    ensures Paired(S) && Marked(S) == old(Marked(S)) && (r.Done? <==> old(bb.inn) == [])
    ensures r.Done? ==> Detached(old(InEnds(S)), old(OutEnds(S)), InEnds(S), OutEnds(S), bb)
    ensures r.Done? ==> bb.dead && g.blist == WithoutFirst(old(g.blist), bb) && g.deadblist == old(g.deadblist) + [bb]
    ensures r.Error? ==> unchanged(g) && Ins(S) == old(Ins(S)) && Outs(S) == old(Outs(S))
  {
    r := TakeOut(g, bb, S);
    if r.Error? { return; }
    r := FinishRemove(g, bb, S);
  }

  method TakeOut(g: BlockGraph, bb: FlowBlock, ghost S: set<FlowBlock>) returns (r: Status)
    requires Paired(S) && bb in S
    modifies S`inn, S`out
    ensures Paired(S) && Marked(S) == old(Marked(S)) && (r.Done? <==> old(bb.inn) == [])
    ensures r.Done? ==> Detached(old(InEnds(S)), old(OutEnds(S)), InEnds(S), OutEnds(S), bb) && bb.inn == []
    ensures r.Error? ==> Ins(S) == old(Ins(S)) && Outs(S) == old(Outs(S))
  {
    r := g.RemoveFromFlow(bb, S);
  }

  method FinishRemove(g: BlockGraph, bb: FlowBlock, ghost S: set<FlowBlock>) returns (r: Status)
    requires bb.inn == []
    modifies g`blist, g`deadblist, bb`dead
    ensures r.Done? && Ins(S) == old(Ins(S)) && Outs(S) == old(Outs(S)) && (old(Paired(S)) ==> Paired(S))
    ensures Marked(S) == old(Marked(S))
    ensures bb.dead && g.blist == WithoutFirst(old(g.blist), bb) && g.deadblist == old(g.deadblist) + [bb]
  {
    r := g.RemoveBlock(bb);
  }

  /** The second half of remove_unreachable_blocks.  No error can occur. */
  method RemoveBlocks(g: BlockGraph, list: seq<FlowBlock>, ghost S: set<FlowBlock>)
    requires Paired(S) && Blocks(list) <= S && Distinct(list) && Distinct(g.blist)
    requires Isolated(InEnds(S), OutEnds(S), list)
    modifies S`inn, S`out, S`dead, g`blist, g`deadblist
    ensures Paired(S) && InEnds(S) == old(InEnds(S)) && OutEnds(S) == old(OutEnds(S))
    ensures g.blist == Sift(old(g.blist), Blocks(list)) && g.deadblist == old(g.deadblist) + list
    ensures Marked(S) == old(Marked(S)) && Dead(S) == old(Dead(S)) + Blocks(list)
  {
    ghost var I, O, bl, dl, marks, dead := InEnds(S), OutEnds(S), g.blist, g.deadblist, Marked(S), Dead(S);
    SiftNothing(bl);
    assert list[..0] == [] && Blocks(list[..0]) == {};
    var i := 0;
    while i < |list|
      invariant 0 <= i <= |list| && Paired(S) && InEnds(S) == I && OutEnds(S) == O
      invariant g.blist == Sift(bl, Blocks(list[..i])) && g.deadblist == dl + list[..i]
      invariant Marked(S) == marks && Dead(S) == dead + Blocks(list[..i])
    {
      SiftStep(bl, dl, list, i);
      assert list[i] in Blocks(list);
      RemoveNext(g, list[i], S);
      i := i + 1;
    }
    assert list[..i] == list;
  }

  // ----- remove_unreachable_blocks

  lemma PairedClosed(S: set<FlowBlock>)
    requires Paired(S)
    ensures Closed(Outs(S))
  {
    PairedIsMaps(S);
    var I, O := Ins(S), Outs(S);
    forall b, k | b in O.Keys && b in O && 0 <= k < |O[b]| ensures O[b][k].point in O.Keys { assert Twin(O, I, b, k); }
  }

  lemma {:induction false} NotAtEvery(es: seq<End>, L: set<FlowBlock>)
    requires forall k :: 0 <= k < |es| ==> es[k].point in L
    ensures NotAt(es, L) == []
  {
    if es != [] { NotAtEvery(es[..|es| - 1], L); }
  }

  /** Only unreached blocks have edges to unreached blocks. */
  lemma UnreachedIsolated(I: EdgeMap, O: EdgeMap, bl: seq<FlowBlock>, entry: FlowBlock)
    requires PairedMaps(I, O) && Distinct(bl) && Blocks(bl) == I.Keys
    ensures var list := Unreached(bl, O, entry); var L := Blocks(list);
      L <= I.Keys && Isolated(NotAtAll(EndsOf(I), L), Masked(EndsOf(O), L), list)
  {
    UnreachedIs(bl, O, entry);
    var list := Unreached(bl, O, entry);
    var L := Blocks(list);
    assert forall b :: b in bl <==> b in Blocks(bl);
    forall k | 0 <= k < |list| ensures NotAt(EndsOf(I)[list[k]], L) == [] && list[k] in L {
      var b := list[k];
      assert b in list && b in Blocks(bl);
      forall j | 0 <= j < |I[b]| ensures I[b][j].point in L {
        assert Twin(I, O, b, j);
        var e := I[b][j];
        assert e.point in Blocks(bl);
        if BlockReaches(O, entry, e.point) { BlockReachesStep(O, entry, e.point, e.reverseIndex); }
        assert e.point in list;
      }
      NotAtEvery(EndsOf(I)[b], L);
    }
  }

  /** The blocks in list are dead, off the list of blocks and without edges; the other
      blocks, and the edges among them, are as before and in order. */
  ghost predicate Pruned(list: seq<FlowBlock>, bl: seq<FlowBlock>, dl: seq<FlowBlock>, I: EndMap, O: EndMap,
                         bl': seq<FlowBlock>, dl': seq<FlowBlock>, I': EndMap, O': EndMap) {
    && bl' == Sift(bl, Blocks(list)) && dl' == dl + list
    && I' == NotAtAll(I, Blocks(list)) && O' == Masked(O, Blocks(list))
  }

  /** remove_unreachable_blocks: what is left is what the entry reaches. */
  method RemoveUnreachableBlocks(g: BlockGraph, entry: FlowBlock, ghost S: set<FlowBlock>) returns (changed: bool)
    requires S == Blocks(g.blist) && Distinct(g.blist) && entry in S && Paired(S) && Marked(S) == {}
    modifies S, g`blist, g`deadblist
    ensures Paired(S) && Marked(S) == {}
    ensures changed <==> old(Unreached(g.blist, Outs(S), entry)) != []
    ensures changed ==>
      Pruned(old(Unreached(g.blist, Outs(S), entry)), old(g.blist), old(g.deadblist), old(InEnds(S)), old(OutEnds(S)),
             g.blist, g.deadblist, InEnds(S), OutEnds(S))
    ensures changed ==> forall b :: b in old(Unreached(g.blist, Outs(S), entry)) ==> b.dead
    ensures Dead(S) == old(Dead(S)) + Blocks(old(Unreached(g.blist, Outs(S), entry)))
    ensures !changed ==> unchanged(g) && Ins(S) == old(Ins(S)) && Outs(S) == old(Outs(S))
  {
    PairedClosed(S);
    var list := CollectReachable(g, entry, true, S);
    if |list| == 0 { return false; }
    PruneReady(g.blist, list, entry, S);
    Prune(g, list, S);
    changed := true;
  }

  lemma PruneReady(bl: seq<FlowBlock>, list: seq<FlowBlock>, entry: FlowBlock, S: set<FlowBlock>)
    requires S == Blocks(bl) && Distinct(bl) && Paired(S) && list == Unreached(bl, Outs(S), entry)
    ensures Distinct(list) && Blocks(list) <= S 
    ensures Isolated(NotAtAll(InEnds(S), Blocks(list)), Masked(OutEnds(S), Blocks(list)), list)
  {
    UnreachedIs(bl, Outs(S), entry);
    PairedIsMaps(S);
    UnreachedIsolated(Ins(S), Outs(S), bl, entry);
    assert forall b :: b in list ==> b in Blocks(list);
  }

  /** The loops of remove_unreachable_blocks. */
  method Prune(g: BlockGraph, list: seq<FlowBlock>, ghost S: set<FlowBlock>)
    requires Paired(S) && Distinct(g.blist) && Distinct(list) && Blocks(list) <= S
    requires Isolated(NotAtAll(InEnds(S), Blocks(list)), Masked(OutEnds(S), Blocks(list)), list)
    modifies S`inn, S`out, S`dead, g`blist, g`deadblist
    ensures Paired(S)
    ensures Marked(S) == old(Marked(S))
    ensures Pruned(list, old(g.blist), old(g.deadblist), old(InEnds(S)), old(OutEnds(S)), g.blist, g.deadblist,
        InEnds(S), OutEnds(S))
    ensures Dead(S) == old(Dead(S)) + Blocks(list)
  {
    ghost var dead := Dead(S) + Blocks(list);
    SetDead(list, S);
    ClearBranches(list, S);
    RemoveBlocks(g, list, S);
    assert Dead(S) == dead;
  }

  method SetDead(list: seq<FlowBlock>, ghost S: set<FlowBlock>)
    requires Blocks(list) <= S
    modifies S`dead
    ensures Dead(S) == old(Dead(S)) + Blocks(list)
    ensures Ins(S) == old(Ins(S)) && Outs(S) == old(Outs(S)) && Marked(S) == old(Marked(S)) &&
        (old(Paired(S)) ==> Paired(S))
  {
    var i := 0;
    while i < |list|
      invariant 0 <= i <= |list| && Dead(S) == old(Dead(S)) + Blocks(list[..i])
    {
      assert list[i] in Blocks(list);
      BlocksNext(list, i);
      SetOneDead(list[i], S);
      i := i + 1;
    }
    assert list[..i] == list;
  }

  method SetOneDead(b: FlowBlock, ghost S: set<FlowBlock>)
    requires b in S
    modifies b`dead
    ensures Dead(S) == old(Dead(S)) + {b}
  {
    b.dead := true;
  }

  /** What remove_unreachable_blocks leaves: exactly the reached blocks, with all their
      out-edges, and with the in-edges that come from reached blocks. */
  lemma PrunedIsReachable(bl: seq<FlowBlock>, dl: seq<FlowBlock>, I: EdgeMap, O: EdgeMap, entry: FlowBlock,
                          bl': seq<FlowBlock>, dl': seq<FlowBlock>, I': EndMap, O': EndMap)
    requires PairedMaps(I, O) && Distinct(bl) && Blocks(bl) == I.Keys
    requires Pruned(Unreached(bl, O, entry), bl, dl, EndsOf(I), EndsOf(O), bl', dl', I', O')
    ensures forall b :: b in bl' <==> b in bl && BlockReaches(O, entry, b)
    ensures forall b :: b in bl' ==> b in O' && O'[b] == EndsOf(O)[b]
    ensures forall b, k :: b in bl' && b in I' && 0 <= k < |I'[b]| ==> BlockReaches(O, entry, I'[b][k].point)
    ensures forall b :: b in bl && b !in bl' ==> b in I' && I'[b] == [] && O'[b] == []
  {
    var list := Unreached(bl, O, entry);
    var L := Blocks(list);
    UnreachedIs(bl, O, entry);
    SiftIs(bl, L);
    UnreachedIsolated(I, O, bl, entry);
    assert forall b :: b in bl <==> b in Blocks(bl);
    forall b, k | b in bl' && b in I' && 0 <= k < |I'[b]| ensures BlockReaches(O, entry, I'[b][k].point) {
      NotAtFrom(EndsOf(I)[b], L, k);
      var j :| 0 <= j < |I[b]| && I'[b][k] == EndsOf(I)[b][j] && I'[b][k].point !in L;
      assert Twin(I, O, b, j);
      assert I[b][j].point in Blocks(bl);
    }
    forall b | b in bl && b !in bl' ensures b in I' && I'[b] == [] && O'[b] == [] {
      assert b in list;
      var k :| 0 <= k < |list| && list[k] == b;
    }
  }

  lemma {:induction false} NotAtFrom(es: seq<End>, L: set<FlowBlock>, k: nat)
    requires k < |NotAt(es, L)|
    ensures exists j :: 0 <= j < |es| && NotAt(es, L)[k] == es[j] && es[j].point !in L
  {
    var n := |es| - 1;
    if k < |NotAt(es[..n], L)| {
      NotAtFrom(es[..n], L, k);
      var j :| 0 <= j < n && NotAt(es[..n], L)[k] == es[..n][j] && es[..n][j].point !in L;
      assert es[j] == es[..n][j];
    }
  }
}
