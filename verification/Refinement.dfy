/** Refinement: overlapping varnodes are cut into pieces that are equal or disjoint. */
module Refinement {
  import opened ByteStrings

  /** Varnodes in memory, by offset and size, and temporaries. */
  datatype Vn = Mem(off: nat, size: nat) | Temp(id: nat, size: nat)

  // ----- where the pieces begin

  predicate Inside(vn: Vn, addr: nat, size: nat) {
    vn.Mem? && vn.size > 0 && addr <= vn.off && vn.off + vn.size <= addr + size
  }

  predicate AllInside(vns: seq<Vn>, addr: nat, size: nat) {
    forall i :: 0 <= i < |vns| ==> Inside(vns[i], addr, size)
  }

  /** Position p, counted from addr, is where one of the varnodes begins or ends. */
  predicate Marked(vns: seq<Vn>, addr: nat, p: nat) {
    exists i :: 0 <= i < |vns| && vns[i].Mem? && (vns[i].off == addr + p || vns[i].off + vns[i].size == addr + p)
  }

  /** build_refinement. */
  method BuildRefinement(refine: array<nat>, addr: nat, vns: seq<Vn>)
    requires refine.Length > 0 && AllInside(vns, addr, refine.Length - 1)
    modifies refine
    ensures forall p :: 0 <= p < refine.Length ==> refine[p] == if Marked(vns, addr, p) then 1 else old(refine[p])
  {
    var i := 0;
    while i < |vns|
      invariant 0 <= i <= |vns|
      invariant forall p :: 0 <= p < refine.Length ==>
          refine[p] == if Marked(vns[..i], addr, p) then 1 else old(refine[p])
    {
      var diff := vns[i].off - addr;
      refine[diff] := 1;
      refine[diff + vns[i].size] := 1;
      forall p | 0 <= p < refine.Length ensures Marked(vns[..i + 1], addr, p) <==>
          Marked(vns[..i], addr, p) || p == diff || p == diff + vns[i].size {
        MarkedNext(vns, addr, i, p);
      }
      i := i + 1;
    }
    assert vns[..i] == vns;
  }

  lemma MarkedNext(vns: seq<Vn>, addr: nat, i: nat, p: nat)
    requires i < |vns| && vns[i].Mem?
    ensures Marked(vns[..i + 1], addr, p) <==>
        Marked(vns[..i], addr, p) || vns[i].off == addr + p || vns[i].off + vns[i].size == addr + p
  {
    var a, b := vns[..i], vns[..i + 1];
    if Marked(a, addr, p) {
      var k :| 0 <= k < |a| && a[k].Mem? && (a[k].off == addr + p || a[k].off + a[k].size == addr + p);
      assert b[k] == a[k];
    }
    if Marked(b, addr, p) {
      var k :| 0 <= k < |b| && b[k].Mem? && (b[k].off == addr + p || b[k].off + b[k].size == addr + p);
      assert k < i ==> a[k] == b[k];
    }
    assert b[i] == vns[i];
  }

  /** From cut c, the next n positions hold no other cut. */
  predicate Cell(C: set<nat>, size: nat, c: nat, n: nat) {
    n > 0 && c + n <= size && (c + n == size || c + n in C) && forall k :: c < k < c + n ==> k !in C
  }

  /** Each cut below `to` holds the distance to the next one, all other positions nothing. */
  predicate Tiled(C: set<nat>, size: nat, to: nat, refine: seq<nat>) {
    to <= |refine| && forall c :: 0 <= c < to ==> if c in C then Cell(C, size, c, refine[c]) else refine[c] == 0
  }

  /** The cuts inside [0, size): the beginning and the marks. */
  ghost function Cuts(vns: seq<Vn>, addr: nat, size: nat): set<nat> {
    set p | 0 <= p < size && (p == 0 || Marked(vns, addr, p))
  }

  /** The loop that turns marks into distances. */
  method MeasurePieces(refine: array<nat>, size: nat, ghost C: set<nat>) returns (lastpos: nat)
    requires size > 0 && refine.Length == size + 1 && 0 in C && forall c :: c in C ==> c < size
    requires forall p :: 0 < p < size ==> refine[p] == if p in C then 1 else 0
    modifies refine
    ensures lastpos in C && (forall c :: c in C ==> c <= lastpos)
    ensures Tiled(C, size, lastpos, refine[..])
    ensures forall p :: lastpos < p < size ==> refine[p] == 0
  {
    lastpos := 0;
    var curpos := 1;
    while curpos < size
      invariant 1 <= curpos <= size && lastpos < curpos && lastpos in C &&
          (forall c :: lastpos < c < curpos ==> c !in C)
      invariant Tiled(C, size, lastpos, refine[..])
      invariant forall p :: lastpos < p < curpos ==> refine[p] == 0
      invariant forall p :: curpos <= p < size ==> refine[p] == if p in C then 1 else 0
    {
      if refine[curpos] != 0 {
        refine[lastpos] := curpos - lastpos;
        lastpos := curpos;
      }
      curpos := curpos + 1;
    }
  }

  datatype Outcome = TooBig | NothingToDo | Cut

  /** The first half of refinement: the vector of piece sizes.  There is nothing to do when no
      varnode begins or ends strictly inside. */
  method Pieces(addr: nat, size: nat, vns: seq<Vn>) returns (r: Outcome, refine: array<nat>)
    requires size > 0 && AllInside(vns, addr, size)
    ensures fresh(refine) && (r == TooBig <==> size > 128)
    ensures r == NothingToDo <==> size <= 128 && forall p :: 0 < p < size ==> !Marked(vns, addr, p)
    ensures r == Cut ==> refine.Length == size + 1 && Tiled(Cuts(vns, addr, size), size, size, refine[..])
  {
    refine := new nat[size + 1](_ => 0);
    if size > 128 { return TooBig, refine; }
    ghost var C := Cuts(vns, addr, size);
    BuildRefinement(refine, addr, vns);
    var lastpos := MeasurePieces(refine, size, C);
    if lastpos == 0 {
      forall p | 0 < p < size ensures !Marked(vns, addr, p) { assert p !in C; }
      return NothingToDo, refine;
    }
    refine[lastpos] := size - lastpos;
    r := Cut;
  }

  // ----- the pieces of a varnode

  /** The varnodes ps lie one behind the other, from `from` to `to`, each on one cell. */
  ghost predicate OnCells(C: set<nat>, addr: nat, size: nat, ps: seq<Vn>, from: nat, to: nat) {
    && (forall i :: 0 <= i < |ps| ==> OnCell(C, addr, size, ps[i]))
    && Consecutive(ps, from, to)
  }

  ghost predicate OnCell(C: set<nat>, addr: nat, size: nat, p: Vn) {
    p.Mem? && addr <= p.off && p.off - addr in C && Cell(C, size, p.off - addr, p.size)
  }

  ghost predicate Consecutive(ps: seq<Vn>, from: nat, to: nat)
    decreases |ps|
  {
    if ps == [] then from == to
    else var last := ps[|ps| - 1];
        last.Mem? && last.off + last.size == to && from <= last.off && Consecutive(ps[..|ps| - 1], from, last.off)
  }

  /** split_by_refinement: nothing when the varnode lies on one cell. */
  method SplitByRefinement(vn: Vn, addr: nat, refine: seq<nat>, ghost C: set<nat>, ghost size: nat)
      returns (split: seq<Vn>)
    requires |refine| == size + 1 && Tiled(C, size, size, refine) && Inside(vn, addr, size)
    requires vn.off - addr in C && (vn.off + vn.size == addr + size || vn.off + vn.size - addr in C)
    ensures OnCells(C, addr, size, if split == [] then [vn] else split, vn.off, vn.off + vn.size)
    ensures |split| != 1
  {
    split := [];
    var sz: nat, diff: nat := vn.size, vn.off - addr;
    var cutsz: nat := refine[diff];
    ghost var end: nat := diff + vn.size;
    if sz <= cutsz {
      OneCell(C, addr, size, refine, vn, diff, end);
    } else {
      split := SplitLoop(vn, addr, refine, C, size, end);
    }
  }

  lemma OneCell(C: set<nat>, addr: nat, size: nat, refine: seq<nat>, vn: Vn, diff: nat, end: nat)
    requires |refine| == size + 1 && Tiled(C, size, size, refine) && Inside(vn, addr, size)
    requires diff == vn.off - addr && diff in C && end == diff + vn.size && (end == size || end in C) &&
        vn.size <= refine[diff]
    ensures OnCells(C, addr, size, [vn], vn.off, vn.off + vn.size)
  {
    var _ := StepToCut(C, size, refine, diff, end, refine[diff]);
    OnCellsNext(C, addr, size, [], vn.off, vn.off, vn.size, diff);
    assert [] + [Mem(vn.off, vn.size)] == [vn];
  }

  /** The loop of split_by_refinement. */
  method SplitLoop(vn: Vn, addr: nat, refine: seq<nat>, ghost C: set<nat>, ghost size: nat, ghost end: nat)
      returns (split: seq<Vn>)
    requires |refine| == size + 1 && Tiled(C, size, size, refine) && Inside(vn, addr, size)
    requires vn.off - addr in C && end == vn.off + vn.size - addr <= size && (end == size || end in C)
    requires refine[vn.off - addr] < vn.size
    ensures |split| > 1 && OnCells(C, addr, size, split, vn.off, vn.off + vn.size)
  {
    split := [];
    var curaddr: nat, sz: nat := vn.off, vn.size;
    var diff: nat := curaddr - addr;
    var cutsz: nat := refine[diff];
    while sz > 0
      invariant 0 <= sz <= vn.size && curaddr == addr + diff && diff + sz == end
      invariant OnCells(C, addr, size, split, vn.off, curaddr)
      invariant sz > 0 ==> diff in C && cutsz == refine[diff]
      invariant if split == [] then sz == vn.size else |split| == 1 ==> sz > 0
    {
      ghost var next := StepToCut(C, size, refine, diff, end, cutsz);
      OnCellsNext(C, addr, size, split, vn.off, curaddr, cutsz, diff);
      split := split + [Mem(curaddr, cutsz)];
      curaddr := curaddr + cutsz;
      sz := sz - cutsz;
      diff := curaddr - addr;
      assert diff == next;
      cutsz := refine[diff];
      if cutsz > sz {
        ghost var _ := Clamped(C, size, refine, diff, end, sz);
        cutsz := sz;
      }
    }
  }

  /** A piece size is cut down only where the varnode ends. */
  lemma Clamped(C: set<nat>, size: nat, refine: seq<nat>, c: nat, e: nat, sz: nat) returns (next: nat)
    requires Tiled(C, size, size, refine) && e <= size && (e == size || e in C) && c + sz == e &&
        |refine| == size + 1 && refine[c] > sz
    requires sz > 0 ==> c in C
    ensures sz == 0
  {
    next := c;
    if sz > 0 { next := StepToCut(C, size, refine, c, e, refine[c]); }
  }

  /** From a cut below another cut or the end, the next piece does not go beyond that. */
  lemma StepToCut(C: set<nat>, size: nat, refine: seq<nat>, c: nat, e: nat, n: nat) returns (next: nat)
    requires Tiled(C, size, size, refine) && c in C && c < e <= size && (e == size || e in C) && n == refine[c]
    ensures Cell(C, size, c, n) && next == c + n <= e && (next < e ==> next in C)
  {
    next := c + n;
    CellFits(C, size, c, n, e);
  }

  /** A cell does not reach over a cut. */
  lemma CellFits(C: set<nat>, size: nat, c: nat, n: nat, e: nat)
    requires Cell(C, size, c, n) && c < e <= size && (e == size || e in C)
    ensures c + n <= e && (c + n < e ==> c + n in C)
  {
  }

  lemma OnCellsNext(C: set<nat>, addr: nat, size: nat, ps: seq<Vn>, from: nat, to: nat, n: nat, c: nat)
    requires OnCells(C, addr, size, ps, from, to) && addr <= from <= to && to - addr == c && c in C &&
        Cell(C, size, c, n)
    ensures OnCells(C, addr, size, ps + [Mem(to, n)], from, to + n)
  {
    var qs := ps + [Mem(to, n)];
    assert qs[..|qs| - 1] == ps;
  }

  /** Two pieces of whatever varnodes are the same or do not overlap. */
  lemma EqualOrDisjoint(C: set<nat>, addr: nat, size: nat, p: Vn, q: Vn)
    requires OnCell(C, addr, size, p) && OnCell(C, addr, size, q)
    ensures p == q || p.off + p.size <= q.off || q.off + q.size <= p.off
  {
  }
}
