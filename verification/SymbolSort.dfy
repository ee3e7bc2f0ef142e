/** Sorting the symbol table before it is written: local symbols first, and the
    relocation entries follow their symbols. */
module SymbolSort {
  import opened Bits
  import opened SymbolHash

  predicate IsLocal(s: Sym) {
    s.Bind() == STB_LOCAL
  }

  /** A relocation entry; info packs the symbol number above the 8-bit type. */
  datatype Rel = Rel(offset: nat, info: nat) {
    predicate Valid() { info < 0x1_0000_0000 }
    function Symbol(): nat { Shr(info, 8) }
    function Type(): nat { And(info, 0xff) }
  }

  /** ELF32_R_INFO */
  function Info(sym: nat, typ: nat): nat {
    (Shl(sym, 8) + And(typ, 0xff)) % 0x1_0000_0000
  }

  // ----- where each symbol goes

  function LocalCount(syms: seq<Sym>, n: nat): (c: nat)
    requires n <= |syms|
    ensures c <= n
  {
    if n == 0 then 0 else LocalCount(syms, n - 1) + if IsLocal(syms[n - 1]) then 1 else 0
  }

  function NewIndex(syms: seq<Sym>, i: nat): nat
    requires i < |syms|
  {
    if IsLocal(syms[i]) then LocalCount(syms, i) else LocalCount(syms, |syms|) + (i - LocalCount(syms, i))
  }

  lemma {:induction false} CountMonotone(syms: seq<Sym>, i: nat, j: nat)
    requires i <= j <= |syms|
    ensures LocalCount(syms, i) <= LocalCount(syms, j) <= LocalCount(syms, i) + (j - i)
    decreases j
  {
    if i < j { CountMonotone(syms, i, j - 1); }
  }

  /** Stable: symbols of the same kind keep their order, and locals go before the others. */
  lemma Stable(syms: seq<Sym>, i: nat, j: nat)
    requires i < |syms| && j < |syms| && i != j
    ensures NewIndex(syms, i) < NewIndex(syms, j) <==>
              if IsLocal(syms[i]) == IsLocal(syms[j]) then i < j else IsLocal(syms[i])
  {
    CountMonotone(syms, i, |syms|);
    CountMonotone(syms, j, |syms|);
    CountMonotone(syms, i + 1, |syms|);
    CountMonotone(syms, j + 1, |syms|);
    if i < j { CountMonotone(syms, i + 1, j); } else { CountMonotone(syms, j + 1, i); }
  }

  /** NewIndex is a permutation of the symbol numbers. */
  lemma Permutation(syms: seq<Sym>)
    ensures forall i :: 0 <= i < |syms| ==> NewIndex(syms, i) < |syms|
    ensures forall i, j :: 0 <= i < j < |syms| ==> NewIndex(syms, i) != NewIndex(syms, j)
  {
    forall i | 0 <= i < |syms| ensures NewIndex(syms, i) < |syms| {
      CountMonotone(syms, i + 1, |syms|);
      CountMonotone(syms, i, |syms|);
    }
    forall i, j | 0 <= i < j < |syms| ensures NewIndex(syms, i) != NewIndex(syms, j) {
      Stable(syms, i, j);
      Stable(syms, j, i);
    }
  }

  /** The sorted table holds every symbol at its new number. */
  ghost predicate IsSorted(syms: seq<Sym>, sorted: seq<Sym>) {
    |sorted| == |syms| && forall i :: 0 <= i < |syms| ==> Moved(syms, sorted, i)
  }

  ghost predicate Moved(syms: seq<Sym>, sorted: seq<Sym>, i: nat)
    requires i < |syms|
  {
    NewIndex(syms, i) < |sorted| && sorted[NewIndex(syms, i)] == syms[i]
  }

  // ----- relocation entries

  function Rewrite(r: Rel, syms: seq<Sym>): Rel
    requires r.Symbol() < |syms|
  {
    Rel(r.offset, Info(NewIndex(syms, r.Symbol()), r.Type()))
  }

  function RewriteAll(rels: seq<Rel>, syms: seq<Sym>): (r: seq<Rel>)
    requires forall k :: 0 <= k < |rels| ==> rels[k].Symbol() < |syms|
    ensures |r| == |rels|
  {
    seq(|rels|, k requires 0 <= k < |rels| => Rewrite(rels[k], syms))
  }

  lemma InfoParts(sym: nat, typ: nat)
    requires sym < 0x100_0000 && typ < 0x100
    ensures Info(sym, typ) < 0x1_0000_0000 && Shr(Info(sym, typ), 8) == sym && And(Info(sym, typ), 0xff) == typ
  {
    assert Pow2(8) == 256;
    ShlMul(sym, 8);
    LowByte(typ);
    DivUnique(typ, 256, 0, typ);
    var w := sym * 256 + typ;
    DivUnique(w, 256, sym, typ);
    DivUnique(w, 0x1_0000_0000, 0, w);
    LowByte(w);
    ShrDiv(w, 8);
  }

  lemma LowByte(w: nat)
    ensures And(w, 0xff) == w % 256
  {
    assert Pow2(8) == 256;
    AndMask(w, 0, 8);
  }

  /** A rewritten entry names the same symbol as before, with the same type. */
  lemma RelocationKept(r: Rel, syms: seq<Sym>, sorted: seq<Sym>)
    requires r.Symbol() < |syms| <= 0x100_0000 && IsSorted(syms, sorted)
    ensures var r' := Rewrite(r, syms);
      r'.Symbol() < |sorted| && sorted[r'.Symbol()] == syms[r.Symbol()] && r'.Type() == r.Type() &&
          r'.offset == r.offset
  {
    assert Moved(syms, sorted, r.Symbol());
    LowByte(r.info);
    Permutation(syms);
    InfoParts(NewIndex(syms, r.Symbol()), r.Type());
  }

  // ----- sort_syms

  class SymbolSection {
    var data: array<Sym>
    var shSize: nat
    var shInfo: nat

    constructor (d: array<Sym>, size: nat)
      ensures data == d && shSize == size && shInfo == 0
    {
      data, shSize, shInfo := d, size, 0;
    }
  }

  class RelocationSection {
    var isRelx: bool
    var link: SymbolSection?
    var rels: seq<Rel>
  }

  /** One pass over the symbols: those of one kind go to newSyms from position q on. */
  method Pass(syms: array<Sym>, newSyms: array<Sym>, oldToNew: array<nat>, local: bool, q0: nat) returns (q: nat)
    requires syms != newSyms && syms.Length == newSyms.Length == oldToNew.Length
    requires q0 == if local then 0 else LocalCount(syms[..], syms.Length)
    requires !local ==> forall i ::
        0 <= i < syms.Length && IsLocal(syms[i]) ==> PassDone(syms[..], newSyms[..], oldToNew[..], i)
    modifies newSyms, oldToNew
    ensures q == if local then LocalCount(syms[..], syms.Length) else syms.Length
    ensures forall i :: 0 <= i < syms.Length && (IsLocal(syms[i]) == local || !local) ==>
        PassDone(syms[..], newSyms[..], oldToNew[..], i)
  {
    q := q0;
    var i := 0;
    Permutation(syms[..]);
    while i < syms.Length
      invariant 0 <= i <= syms.Length && syms[..] == old(syms[..])
      invariant q == q0 + if local then LocalCount(syms[..], i) else i - LocalCount(syms[..], i)
      invariant forall k :: 0 <= k < i && (IsLocal(syms[k]) == local || !local) ==>
          PassDone(syms[..], newSyms[..], oldToNew[..], k)
      invariant !local ==> forall k ::
          0 <= k < syms.Length && IsLocal(syms[k]) ==> PassDone(syms[..], newSyms[..], oldToNew[..], k)
    {
      if IsLocal(syms[i]) == local {
        assert q == NewIndex(syms[..], i);
        ghost var n0, o0 := newSyms[..], oldToNew[..];
        oldToNew[i] := q;
        newSyms[q] := syms[i];
        forall k | 0 <= k < syms.Length && k != i && PassDone(syms[..], n0, o0, k)
          ensures PassDone(syms[..], newSyms[..], oldToNew[..], k)
        {
          assert NewIndex(syms[..], k) != q;
        }
        assert PassDone(syms[..], newSyms[..], oldToNew[..], i);
        q := q + 1;
      }
      i := i + 1;
    }
  }

  ghost function NewIndices(syms: seq<Sym>): (r: seq<nat>)
    ensures |r| == |syms| && forall k :: 0 <= k < |syms| ==> r[k] == NewIndex(syms, k)
  {
    seq(|syms|, k requires 0 <= k < |syms| => NewIndex(syms, k))
  }

  /** The first half of sort_syms: the symbols themselves. */
  method SortTable(s: SymbolSection) returns (oldToNew: array<nat>)
    modifies s`shInfo, s.data
    ensures fresh(oldToNew) && oldToNew[..] == NewIndices(old(s.data[..]))
    ensures IsSorted(old(s.data[..]), s.data[..])
    ensures s.shInfo == if s.shSize != 0 then LocalCount(old(s.data[..]), s.data.Length) else old(s.shInfo)
  {
    ghost var syms := s.data[..];
    var n := s.data.Length;
    var newSyms := new Sym[n](_ => Sym(0, 0, 0, 0, 0, 0));
    oldToNew := new nat[n](_ => 0);
    var q := Pass(s.data, newSyms, oldToNew, true, 0);
    if s.shSize != 0 { s.shInfo := q; }
    q := Pass(s.data, newSyms, oldToNew, false, q);
    forall k | 0 <= k < n { s.data[k] := newSyms[k]; }
    assert s.data[..] == newSyms[..];
    forall k | 0 <= k < n ensures oldToNew[k] == NewIndex(syms, k) && Moved(syms, newSyms[..], k) {
      assert PassDone(syms, newSyms[..], oldToNew[..], k);
    }
  }

  /** sort_syms.  The sections are numbered from 0, and section 0 is never looked at. */
  method SortSyms(s: SymbolSection, sections: seq<RelocationSection>)
    requires forall i, j :: 0 <= i < j < |sections| ==> sections[i] != sections[j]
    requires forall i :: 0 <= i < |sections| ==> EntriesInRange(s, sections[i])
    modifies s`shInfo, s.data, sections
    ensures IsSorted(old(s.data[..]), s.data[..])
    ensures s.shInfo == if s.shSize != 0 then LocalCount(old(s.data[..]), s.data.Length) else old(s.shInfo)
    ensures forall i :: 0 <= i < |sections| ==>
      sections[i].rels == NewRels(i, old(Follows(s, sections[i])), old(sections[i].rels), old(s.data[..]))
  {
    ghost var syms := s.data[..];
    var oldToNew := SortTable(s);
    RewriteSections(s, sections, oldToNew, syms);
  }

  /** The second half of sort_syms: every relocation section of the table. */
  method RewriteSections(s: SymbolSection, sections: seq<RelocationSection>, oldToNew: array<nat>, ghost syms: seq<Sym>)
    requires forall i, j :: 0 <= i < j < |sections| ==> sections[i] != sections[j]
    requires forall i :: 0 <= i < |sections| ==> EntriesInRange(s, sections[i])
    requires |syms| == s.data.Length && oldToNew[..] == NewIndices(syms)
    modifies sections
    ensures forall i :: 0 <= i < |sections| ==>
      sections[i].rels == NewRels(i, old(Follows(s, sections[i])), old(sections[i].rels), syms)
  {
    var i := 1;
    while i < |sections|
      invariant 1 <= i
      invariant forall j :: i <= j < |sections| ==> unchanged(sections[j])
      invariant forall j :: 0 <= j < i && j < |sections| ==>
        sections[j].rels == NewRels(j, old(Follows(s, sections[j])), old(sections[j].rels), syms)
    {
      var sr := sections[i];
      assert EntriesInRange(s, sr);
      if sr.isRelx && sr.link == s {
        RewriteRels(sr, oldToNew, syms);
      }
      i := i + 1;
    }
  }

  /** Does sort_syms rewrite the section's entries? */
  ghost predicate Follows(s: SymbolSection, sr: RelocationSection)
    reads sr
  {
    sr.isRelx && sr.link == s
  }

  ghost predicate EntriesInRange(s: SymbolSection, sr: RelocationSection)
    reads s, sr
  {
    Follows(s, sr) ==> forall k :: 0 <= k < |sr.rels| ==> sr.rels[k].Symbol() < s.data.Length
  }

  ghost function NewRels(i: nat, follows: bool, rels: seq<Rel>, syms: seq<Sym>): seq<Rel> {
    if i > 0 && follows &&
        forall k :: 0 <= k < |rels| ==> rels[k].Symbol() < |syms| then RewriteAll(rels, syms) else rels
  }

  /** The entries of one relocation section. */
  method RewriteRels(sr: RelocationSection, oldToNew: array<nat>, ghost syms: seq<Sym>)
    requires oldToNew[..] == NewIndices(syms)
    requires forall k :: 0 <= k < |sr.rels| ==> sr.rels[k].Symbol() < |syms|
    modifies sr`rels
    ensures sr.rels == RewriteAll(old(sr.rels), syms)
  {
    var k := 0;
    while k < |sr.rels|
      invariant 0 <= k <= |sr.rels| == |old(sr.rels)|
      invariant forall j :: 0 <= j < |sr.rels| ==>
          sr.rels[j] == if j < k then Rewrite(old(sr.rels)[j], syms) else old(sr.rels)[j]
    {
      var sym := oldToNew[sr.rels[k].Symbol()];
      assert sym == oldToNew[..][sr.rels[k].Symbol()];
      sr.rels := sr.rels[k := Rel(sr.rels[k].offset, Info(sym, sr.rels[k].Type()))];
      k := k + 1;
    }
  }

  ghost predicate PassDone(syms: seq<Sym>, newSyms: seq<Sym>, oldToNew: seq<nat>, i: nat)
    requires i < |syms| == |oldToNew|
  {
    oldToNew[i] == NewIndex(syms, i) && Moved(syms, newSyms, i)
  }
}
