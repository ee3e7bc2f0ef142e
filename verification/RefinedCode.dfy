/** refinement: all varnodes of a range are cut into pieces, and the code is rewritten. */
module RefinedCode {
  import opened Sequences
  import opened ByteStrings
  import opened Refinement
  import opened PieceOps

  // ----- where varnodes stand

  /** An input or the output of the operation with the given id. */
  datatype Site = ReadSite(id: nat, slot: nat) | WriteSite(id: nat)

  /** The operation with an id. */
  function OpWith(ops: seq<Op>, id: nat): Option<Op> {
    if ops == [] then None else if ops[0].id == Some(id) then Some(ops[0]) else OpWith(ops[1..], id)
  }

  function VnOf(op: Option<Op>, site: Site): Option<Vn> {
    if op.None? then None
    else match site
      case ReadSite(_, slot) => if slot < |op.value.ins| then Some(op.value.ins[slot]) else None
      case WriteSite(_) => Some(op.value.out)
  }

  function VnAt(ops: seq<Op>, site: Site): Option<Vn> {
    VnOf(OpWith(ops, site.id), site)
  }

  lemma {:induction false} OpWithParts(a: seq<Op>, b: seq<Op>, id: nat)
    ensures OpWith(a + b, id) == if OpWith(a, id).Some? then OpWith(a, id) else OpWith(b, id)
  {
    if a == [] {
      assert a + b == b;
    } else {
      assert (a + b)[1..] == a[1..] + b;
      OpWithParts(a[1..], b, id);
    }
  }

  lemma {:induction false} NoIds(ops: seq<Op>, id: nat)
    requires forall i :: 0 <= i < |ops| ==> ops[i].id.None?
    ensures OpWith(ops, id) == None
  {
    if ops != [] { NoIds(ops[1..], id); }
  }

  method FindOp(ops: seq<Op>, id: nat) returns (pos: nat)
    requires OpWith(ops, id).Some?
    ensures pos < |ops| && ops[pos].id == Some(id) && OpWith(ops, id) == Some(ops[pos]) &&
        OpWith(ops[..pos], id) == None
  {
    pos := 0;
    while ops[pos].id != Some(id)
      invariant pos < |ops| && OpWith(ops, id) == OpWith(ops[pos..], id) && OpWith(ops[pos..], id).Some? &&
          OpWith(ops[..pos], id) == None
      decreases |ops| - pos
    {
      assert ops[..pos + 1] == ops[..pos] + [ops[pos]];
      OpWithParts(ops[..pos], [ops[pos]], id);
      assert ops[pos..][1..] == ops[pos + 1..];
      pos := pos + 1;
    }
  }

  /** Among other operations, op is replaced by op1, which has its id, and by operations without ids. */
  lemma Replaced(a: seq<Op>, op: Op, x: seq<Op>, op1: Op, z: seq<Op>, b: seq<Op>, id: nat, at: nat)
    requires op.id == op1.id == Some(at) && OpWith(a, at) == None
    requires (forall i :: 0 <= i < |x| ==> x[i].id.None?) && forall i :: 0 <= i < |z| ==> z[i].id.None?
    ensures OpWith(a + (x + [op1] + z) + b, id) == if id == at then Some(op1) else OpWith(a + [op] + b, id)
  {
    OpWithParts(a + (x + [op1] + z), b, id);
    OpWithParts(a, x + [op1] + z, id);
    OpWithParts(x + [op1], z, id);
    OpWithParts(x, [op1], id);
    OpWithParts(a + [op], b, id);
    OpWithParts(a, [op], id);
    NoIds(x, id);
    NoIds(z, id);
  }

  // ----- pieces lie on cells

  /** Inserted operations touch memory only on cells. */
  ghost predicate PartsOnCells(ops: seq<Op>, C: set<nat>, addr: nat, size: nat) {
    forall i :: 0 <= i < |ops| && ops[i].id.None? ==> OpOnCells(ops[i], C, addr, size)
  }

  ghost predicate OpOnCells(op: Op, C: set<nat>, addr: nat, size: nat) {
    VnOnCells(op.out, C, addr, size) && forall k :: 0 <= k < |op.ins| ==> VnOnCells(op.ins[k], C, addr, size)
  }

  ghost predicate VnOnCells(vn: Vn, C: set<nat>, addr: nat, size: nat) {
    vn.Mem? ==> OnCell(C, addr, size, vn)
  }

  lemma {:induction false} JoinOnCells(vs: seq<Vn>, k: nat, final: Vn, u: nat, big: bool, C: set<nat>, addr: nat,
      size: nat)
    requires k < |vs| && final.Temp? && forall i :: 0 <= i < |vs| ==> OnCell(C, addr, size, vs[i])
    ensures PartsOnCells(JoinOps(vs, k, final, u, big), C, addr, size)
    ensures forall i :: 0 <= i < |JoinOps(vs, k, final, u, big)| ==> JoinOps(vs, k, final, u, big)[i].id.None?
  {
    if k > 0 { JoinOnCells(vs, k - 1, final, u, big, C, addr, size); }
  }

  lemma {:induction false} SplitOnCells(vs: seq<Vn>, k: nat, start: Vn, off: nat, n: nat, big: bool, C: set<nat>,
      addr: nat, size: nat)
    requires k <= |vs| && Splits(vs, off, n, big) && start.Temp? &&
        forall i :: 0 <= i < |vs| ==> OnCell(C, addr, size, vs[i])
    ensures PartsOnCells(SplitOps(vs, k, start, off, n, big), C, addr, size)
    ensures forall i :: 0 <= i < |SplitOps(vs, k, start, off, n, big)| ==>
        SplitOps(vs, k, start, off, n, big)[i].id.None?
  {
    if k > 0 { SplitOnCells(vs, k - 1, start, off, n, big, C, addr, size); }
  }

  // ----- one site

  /** What one rewrite promises: the meaning is kept, every other site is as before, and this one
      holds a temporary, or its varnode lies on one cell. */
  ghost predicate Refines(c: Machine, ops: seq<Op>, u: nat, code: seq<Op>, n: nat, site: Site) {
    && SameMeaning(c, ops, code, u) && u <= n && OldOps(code, n)
    && forall other: Site {:trigger VnAt(code, other)} :: other != site ==> VnAt(code, other) == VnAt(ops, other)
  }

  ghost predicate Settled(code: seq<Op>, site: Site, C: set<nat>, addr: nat, size: nat) {
    VnAt(code, site).Some? && VnOnCells(VnAt(code, site).value, C, addr, size)
  }

  /** The pieces of a varnode, as split_by_refinement gives them. */
  method SplitAt(vn: Vn, addr: nat, refine: seq<nat>, ghost C: set<nat>, ghost size: nat) returns (split: seq<Vn>)
    requires Refinable(vn, addr, refine, C, size)
    ensures split == [] ==> OnCell(C, addr, size, vn)
    ensures split != [] ==> |split| > 1 && Row(split, vn.off, vn.off + vn.size)
    ensures split != [] ==> forall i :: 0 <= i < |split| ==> OnCell(C, addr, size, split[i])
  {
    split := SplitByRefinement(vn, addr, refine, C, size);
    if split == [] { assert [vn][0] == vn; }
  }

  /** refine_read: the operation at pos reads the pieces of its varnode in `slot`. */
  method RefineRead(ops: seq<Op>, uniq: nat, id: nat, slot: nat, addr: nat, refine: seq<nat>, c: Machine,
      ghost C: set<nat>, ghost size: nat)
    returns (code: seq<Op>, u: nat)
    requires OldOps(ops, uniq) && VnAt(ops, ReadSite(id, slot)).Some? &&
        Refinable(VnAt(ops, ReadSite(id, slot)).value, addr, refine, C, size)
    requires PartsOnCells(ops, C, addr, size)
    ensures Refines(c, ops, uniq, code, u, ReadSite(id, slot)) && Settled(code, ReadSite(id, slot), C, addr, size) &&
        PartsOnCells(code, C, addr, size)
  {
    var pos := FindOp(ops, id);
    var vn := ops[pos].ins[slot];
    var newvn := SplitAt(vn, addr, refine, C, size);
    if newvn == [] {
      MeaningSelf(c, ops, uniq);
      return ops, uniq;
    }
    code, u := ReadPieces(ops, pos, slot, newvn, uniq, c);
    ReadDone(c, ops, pos, slot, newvn, uniq, u);
    ReadSettles(ops, pos, id, slot, newvn, uniq, c.big, C, addr, size);
  }

  /** refine_write: the operation at pos writes the pieces of its output. */
  method RefineWrite(ops: seq<Op>, uniq: nat, id: nat, addr: nat, refine: seq<nat>, c: Machine, ghost C: set<nat>,
      ghost size: nat)
    returns (code: seq<Op>, u: nat)
    requires OldOps(ops, uniq) && VnAt(ops, WriteSite(id)).Some? &&
        Refinable(VnAt(ops, WriteSite(id)).value, addr, refine, C, size)
    requires PartsOnCells(ops, C, addr, size)
    ensures Refines(c, ops, uniq, code, u, WriteSite(id)) && Settled(code, WriteSite(id), C, addr, size) &&
        PartsOnCells(code, C, addr, size)
  {
    var pos := FindOp(ops, id);
    var vn := ops[pos].out;
    var newvn := SplitAt(vn, addr, refine, C, size);
    if newvn == [] {
      MeaningSelf(c, ops, uniq);
      return ops, uniq;
    }
    RowBelow(newvn, vn.off, vn.off + vn.size, c.big);
    code, u := WritePieces(ops, pos, newvn, uniq, c);
    WriteDone(c, ops, pos, newvn, uniq, u);
    WriteSettles(ops, pos, id, newvn, uniq, c.big, C, addr, size);
  }

  /** The code with the operation at pos reading a new temporary, into which the pieces are joined before. */
  method ReadPieces(ops: seq<Op>, pos: nat, slot: nat, vs: seq<Vn>, uniq: nat, c: Machine)
      returns (code: seq<Op>, u: nat)
    requires pos < |ops| && slot < |ops[pos].ins| && |vs| > 1
    ensures code == ReadCode(ops, pos, slot, vs, uniq, c.big) && u == uniq + |vs| - 1
  {
    var replacevn := Temp(uniq, ops[pos].ins[slot].size);
    var join;
    join, u := ConcatPieces(vs, replacevn, c.big, uniq + 1);
    code := ops[..pos] + (join + [WithIn(ops[pos], slot, replacevn)]) + ops[pos + 1..];
  }

  /** The code with the operation at pos writing a new temporary, from which the pieces are taken behind it. */
  method WritePieces(ops: seq<Op>, pos: nat, vs: seq<Vn>, uniq: nat, c: Machine) returns (code: seq<Op>, u: nat)
    requires pos < |ops| && ops[pos].out.Mem? && Splits(vs, ops[pos].out.off, ops[pos].out.size, c.big)
    ensures code == WriteCode(ops, pos, vs, uniq, c.big) && u == uniq + 1
  {
    var vn := ops[pos].out;
    var replacevn := Temp(uniq, vn.size);
    var sub := SplitPieces(vs, vn.off, vn.size, replacevn, c.big);
    code, u := ops[..pos] + ([WithOut(ops[pos], replacevn)] + sub) + ops[pos + 1..], uniq + 1;
  }

  lemma PartsJoined(a: seq<Op>, x: seq<Op>, op1: Op, z: seq<Op>, b: seq<Op>, C: set<nat>, addr: nat, size: nat)
    requires PartsOnCells(a, C, addr, size) && PartsOnCells(b, C, addr, size) && PartsOnCells(x, C, addr, size) &&
        PartsOnCells(z, C, addr, size)
    requires op1.id.Some?
    ensures PartsOnCells(a + (x + [op1] + z) + b, C, addr, size)
  {
  }

  lemma ReadSettles(ops: seq<Op>, pos: nat, id: nat, slot: nat, vs: seq<Vn>, u: nat, big: bool, C: set<nat>, addr: nat,
      size: nat)
    requires pos < |ops| && ops[pos].id == Some(id) && OpWith(ops[..pos], id) == None && slot < |ops[pos].ins| &&
        |vs| > 1
    requires PartsOnCells(ops, C, addr, size) && forall i :: 0 <= i < |vs| ==> OnCell(C, addr, size, vs[i])
    ensures var code := ReadCode(ops, pos, slot, vs, u, big);
      && PartsOnCells(code, C, addr, size) && VnAt(code, ReadSite(id, slot)) == Some(Temp(u, ops[pos].ins[slot].size))
      && forall other: Site {:trigger VnAt(code, other)} ::
          other != ReadSite(id, slot) ==> VnAt(code, other) == VnAt(ops, other)
  {
    var op, final := ops[pos], Temp(u, ops[pos].ins[slot].size);
    var a, b, x, op1 := ops[..pos], ops[pos + 1..], JoinOps(vs, |vs| - 1, final, u + 1, big),
        WithIn(ops[pos], slot, final);
    var code := ReadCode(ops, pos, slot, vs, u, big);
    JoinOnCells(vs, |vs| - 1, final, u + 1, big, C, addr, size);
    PartsJoined(a, x, op1, [], b, C, addr, size);
    assert x + [op1] + [] == x + [op1];
    assert ops == a + [op] + b;
    forall other: Site ensures OpWith(code, other.id) == if other.id == id then Some(op1) else OpWith(ops, other.id) {
      Replaced(a, op, x, op1, [], b, other.id, id);
    }
    Replaced(a, op, [], op, [], b, id, id);
    assert [] + [op] + [] == [op];
  }

  lemma WriteSettles(ops: seq<Op>, pos: nat, id: nat, vs: seq<Vn>, u: nat, big: bool, C: set<nat>, addr: nat, size: nat)
    requires pos < |ops| && ops[pos].id == Some(id) && OpWith(ops[..pos], id) == None && ops[pos].out.Mem?
    requires Splits(vs, ops[pos].out.off, ops[pos].out.size, big)
    requires PartsOnCells(ops, C, addr, size) && forall i :: 0 <= i < |vs| ==> OnCell(C, addr, size, vs[i])
    ensures var code := WriteCode(ops, pos, vs, u, big);
      && PartsOnCells(code, C, addr, size) && VnAt(code, WriteSite(id)) == Some(Temp(u, ops[pos].out.size))
      && forall other: Site {:trigger VnAt(code, other)} ::
          other != WriteSite(id) ==> VnAt(code, other) == VnAt(ops, other)
  {
    var op, t := ops[pos], Temp(u, ops[pos].out.size);
    var a, b, op1 := ops[..pos], ops[pos + 1..], WithOut(ops[pos], t);
    var z := SplitOps(vs, |vs|, t, ops[pos].out.off, ops[pos].out.size, big);
    var code := WriteCode(ops, pos, vs, u, big);
    SplitOnCells(vs, |vs|, t, ops[pos].out.off, ops[pos].out.size, big, C, addr, size);
    PartsJoined(a, [], op1, z, b, C, addr, size);
    assert [] + [op1] + z == [op1] + z;
    assert ops == a + [op] + b;
    forall other: Site ensures OpWith(code, other.id) == if other.id == id then Some(op1) else OpWith(ops, other.id) {
      Replaced(a, op, [], op1, z, b, other.id, id);
    }
    Replaced(a, op, [], op, [], b, id, id);
    assert [] + [op] + [] == [op];
  }

  // ----- all sites

  /** All sites hold varnodes inside the range. */
  ghost predicate SitesInside(ops: seq<Op>, sites: seq<Site>, addr: nat, size: nat) {
    forall i {:trigger sites[i]} ::
        0 <= i < |sites| ==> VnAt(ops, sites[i]).Some? && Inside(VnAt(ops, sites[i]).value, addr, size)
  }

  /** The varnodes at the sites. */
  function VnsAt(ops: seq<Op>, sites: seq<Site>): (r: seq<Vn>)
    requires forall i :: 0 <= i < |sites| ==> VnAt(ops, sites[i]).Some?
    ensures |r| == |sites| && forall i :: 0 <= i < |sites| ==> r[i] == VnAt(ops, sites[i]).value
  {
    seq(|sites|, i requires 0 <= i < |sites| => VnAt(ops, sites[i]).value)
  }

  /** The sites before n are settled, the others hold what they held in ops. */
  ghost predicate Rewritten(c: Machine, ops: seq<Op>, u0: nat, code: seq<Op>, u: nat, sites: seq<Site>, n: nat,
      C: set<nat>, addr: nat, size: nat) {
    && SameMeaning(c, ops, code, u0) && u0 <= u && OldOps(code, u) && PartsOnCells(code, C, addr, size)
    && (forall i {:trigger sites[i]} :: 0 <= i < n && i < |sites| ==> Settled(code, sites[i], C, addr, size))
    && forall i {:trigger sites[i]} :: n <= i < |sites| ==> VnAt(code, sites[i]) == VnAt(ops, sites[i])
  }

  /** One site. */
  method RefineSite(ops: seq<Op>, uniq: nat, site: Site, addr: nat, refine: seq<nat>, c: Machine, ghost C: set<nat>,
      ghost size: nat)
    returns (code: seq<Op>, u: nat)
    requires OldOps(ops, uniq) && VnAt(ops, site).Some? && Refinable(VnAt(ops, site).value, addr, refine, C, size) &&
        PartsOnCells(ops, C, addr, size)
    ensures Refines(c, ops, uniq, code, u, site) && Settled(code, site, C, addr, size) &&
        PartsOnCells(code, C, addr, size)
  {
    match site {
      case ReadSite(id, slot) => code, u := RefineRead(ops, uniq, id, slot, addr, refine, c, C, size);
      case WriteSite(id) => code, u := RefineWrite(ops, uniq, id, addr, refine, c, C, size);
    }
  }

  lemma RewrittenMore(c: Machine, ops: seq<Op>, u0: nat, code: seq<Op>, u: nat, next: seq<Op>, n1: nat,
      sites: seq<Site>, i: nat,
                      C: set<nat>, addr: nat, size: nat)
    requires Rewritten(c, ops, u0, code, u, sites, i, C, addr, size) && i < |sites| &&
        forall j, k :: 0 <= j < k < |sites| ==> sites[j] != sites[k]
    requires Refines(c, code, u, next, n1, sites[i]) && Settled(next, sites[i], C, addr, size) &&
        PartsOnCells(next, C, addr, size)
    ensures Rewritten(c, ops, u0, next, n1, sites, i + 1, C, addr, size)
  {
    MeaningAdds(c, ops, code, next, u0, u);
    forall j | 0 <= j < |sites| && j != i ensures VnAt(next, sites[j]) == VnAt(code, sites[j]) {}
  }

  class Code {
    var ops: seq<Op>
    var uniq: nat

    constructor (ops: seq<Op>, uniq: nat)
      ensures this.ops == ops && this.uniq == uniq
    {
      this.ops, this.uniq := ops, uniq;
    }

    /** refinement, of the reads and writes at the sites: the code means what it meant, and the
        sites and the inserted operations touch memory only on cells, which are equal or disjoint. */
    method Refinement(addr: nat, size: nat, sites: seq<Site>, c: Machine) returns (r: Outcome)
      requires size > 0 && OldOps(ops, uniq) && SitesInside(ops, sites, addr, size) &&
          forall j, k :: 0 <= j < k < |sites| ==> sites[j] != sites[k]
      requires forall i :: 0 <= i < |ops| ==> ops[i].id.Some?
      modifies this
      ensures r == TooBig <==> size > 128
      ensures r == NothingToDo <==> size <= 128 && forall p :: 0 < p < size ==> !Marked(VnsAt(old(ops), sites), addr, p)
      ensures r != Cut ==> ops == old(ops) && uniq == old(uniq)
      ensures r == Cut ==> Rewritten(c, old(ops), old(uniq), ops, uniq, sites, |sites|,
          Cuts(VnsAt(old(ops), sites), addr, size), addr, size)
    {
      var vns := VnsAt(ops, sites);
      var refine;
      r, refine := Pieces(addr, size, vns);
      if r == Cut { ops, uniq := RefineSites(ops, uniq, sites, vns, addr, size, refine[..], c); }
    }
  }

  /** The loops of refinement over the varnodes that are read and written. */
  method RefineSites(ops: seq<Op>, uniq: nat, sites: seq<Site>, vns: seq<Vn>, addr: nat, size: nat, refine: seq<nat>,
      c: Machine)
    returns (code: seq<Op>, u: nat)
    requires OldOps(ops, uniq) && SitesInside(ops, sites, addr, size) && vns == VnsAt(ops, sites)
    requires (forall j, k :: 0 <= j < k < |sites| ==> sites[j] != sites[k]) &&
        forall i :: 0 <= i < |ops| ==> ops[i].id.Some?
    requires |refine| == size + 1 && Tiled(Cuts(vns, addr, size), size, size, refine)
    ensures Rewritten(c, ops, uniq, code, u, sites, |sites|, Cuts(vns, addr, size), addr, size)
  {
    ghost var C := Cuts(vns, addr, size);
    code, u := ops, uniq;
    MeaningSelf(c, ops, uniq);
    var i := 0;
    while i < |sites|
      invariant 0 <= i <= |sites| && Rewritten(c, ops, uniq, code, u, sites, i, C, addr, size)
    {
      MeasuredRefinable(vns, i, addr, refine, size);
      var next, n := RefineSite(code, u, sites[i], addr, refine, c, C, size);
      RewrittenMore(c, ops, uniq, code, u, next, n, sites, i, C, addr, size);
      code, u := next, n;
      i := i + 1;
    }
  }
}
