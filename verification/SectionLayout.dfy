/** Placing the sections of the output file, and writing the file. */
module SectionLayout {
  import opened Bits
  import opened SymbolHash

  const EHDR_SIZE: nat := 52
  const PHDR_SIZE: nat := 32

  /** What the layout needs to know of a section. */
  datatype Shape = Shape(align: nat, size: nat, isNobits: bool, isUnplaced: bool)

  class Section {
    const name: string
    const isNobits: bool
    const shAddralign: nat
    const shSize: nat
    const data: seq<Byte>
    var shAddr: nat
    var shOffset: nat

    constructor (name: string, isNobits: bool, align: nat, size: nat, data: seq<Byte>)
      ensures this.name == name && this.isNobits == isNobits && shAddralign == align && shSize == size &&
          this.data == data
    {
      this.name, this.isNobits, this.shAddralign, this.shSize, this.data := name, isNobits, align, size, data;
      shAddr, shOffset := 0, 0;
    }

    /** Sections of these names get no address. */
    predicate IsUnplaced() {
      name == ".comment" || name == ".note.gnu.gold-version" || name == ".ARM.attributes" || name == ".shstrtab"
    }

    function GetShape(): Shape { Shape(shAddralign, shSize, isNobits, IsUnplaced()) }
  }

  function Shapes(sections: seq<Section>): (r: seq<Shape>)
    ensures |r| == |sections| && forall j :: 0 <= j < |r| ==> r[j] == sections[j].GetShape()
  {
    seq(|sections|, j requires 0 <= j < |sections| => sections[j].GetShape())
  }

  /** The macro ALIGN_UP. */
  function AlignUp(v: nat, a: nat): nat
    requires a > 0
  {
    AndNot(v + a - 1, a - 1)
  }

  datatype Cursor = Cursor(addr: nat, off: nat)

  /** The writable data segment starts at section `start` (0: there is none) and is aligned. */
  datatype DataSegment = DataSegment(start: nat, align: nat)

  function First(phnum: nat): Cursor {
    var off := EHDR_SIZE + phnum * PHDR_SIZE;
    Cursor(AndNot(off, 3), off)
  }

  /** Where section j goes when the cursor is c. */
  function Place(c: Cursor, s: Shape, j: nat, d: DataSegment): Cursor
    requires s.align > 0
  {
    var addr := AlignUp(c.addr, s.align);
    Cursor(if !s.isUnplaced && d.start == j && d.align > 0 &&
        And(addr, d.align - 1) != 0 then addr + d.align else addr, AlignUp(c.off, s.align))
  }

  function Advance(p: Cursor, s: Shape): Cursor {
    Cursor(p.addr + s.size, if s.isNobits then p.off else p.off + s.size)
  }

  ghost predicate Aligned(shapes: seq<Shape>) {
    forall j :: 0 <= j < |shapes| ==> shapes[j].align > 0
  }

  /** The cursor before section n; section 0 is the null section. */
  ghost function Before(shapes: seq<Shape>, d: DataSegment, phnum: nat, n: nat): Cursor
    requires Aligned(shapes) && n <= |shapes|
    decreases n, 0
  {
    if n <= 1 then First(phnum) else Advance(Placed(shapes, d, phnum, n - 1), shapes[n - 1])
  }

  ghost function Placed(shapes: seq<Shape>, d: DataSegment, phnum: nat, j: nat): Cursor
    requires Aligned(shapes) && j < |shapes|
    decreases j, 1
  {
    if j == 0 then Cursor(0, 0) else Place(Before(shapes, d, phnum, j), shapes[j], j, d)
  }

  // ----- properties of the layout

  /** The power of two a, as 2^w. */
  ghost predicate Power(a: nat) {
    exists w: nat :: a == Pow2(w)
  }

  lemma AlignUpIs(v: nat, a: nat)
    requires Power(a)
    ensures v <= AlignUp(v, a) < v + a && AlignUp(v, a) % a == 0
  {
    var w: nat :| a == Pow2(w);
    var x := v + a - 1;
    AndNotLow(x, w);
    DivMod(x, a);
    DivUnique(a * (x / a), a, x / a, 0);
  }

  lemma MultipleOf(x: nat, p: nat, a: nat)
    requires p > 0 && a > 0 && x % p == 0 && p % a == 0
    ensures x % a == 0
  {
    var k, m := x / p, p / a;
    assert x == p * k && p == a * m;
    assert x == a * (m * k);
    DivUnique(x, a, m * k, 0);
  }

  lemma SumOfMultiples(x: nat, y: nat, a: nat)
    requires a > 0 && x % a == 0 && y % a == 0
    ensures (x + y) % a == 0
  {
    var k, m := x / a, y / a;
    assert x + y == a * (k + m);
    DivUnique(x + y, a, k + m, 0);
  }

  ghost predicate Fine(shapes: seq<Shape>, d: DataSegment, page: nat) {
    && Power(page) && (d.start > 0 ==> Power(d.align) && d.align % page == 0)
    && forall j :: 0 <= j < |shapes| ==> Power(shapes[j].align) && page % shapes[j].align == 0
  }

  lemma Factor(x: nat, a: nat)
    requires a > 0 && x % a == 0
    ensures x == a * (x / a)
  {
  }

  lemma Gap(a: nat, k: nat, l: nat)
    requires k < l
    ensures a * k + a <= a * l
  {
    MulLe(a, k + 1, l);
  }

  lemma SameMultiple(a: nat, u: nat, m: nat)
    requires a > 0 && u % a == 0 && m % a == 0 && u < m + a && m < u + a
    ensures u == m
  {
    var k, l := u / a, m / a;
    Factor(u, a);
    Factor(m, a);
    if k < l { Gap(a, k, l); }
    if l < k { Gap(a, l, k); }
  }

  lemma AlignUnique(v: nat, a: nat, m: nat)
    requires Power(a) && v <= m < v + a && m % a == 0
    ensures AlignUp(v, a) == m
  {
    AlignUpIs(v, a);
    SameMultiple(a, AlignUp(v, a), m);
  }

  lemma PagesApart(x: nat, y: nat, page: nat) returns (k: nat)
    requires page > 0 && y <= x && x % page == y % page
    ensures x == y + page * k
  {
    var q, r := x / page, y / page;
    assert x == page * q + x % page && y == page * r + y % page;
    if q < r { Gap(page, q, r); }
    k := q - r;
  }

  /** Rounding up keeps two positions that are congruent modulo the page congruent. */
  lemma AlignCongruent(x: nat, y: nat, a: nat, page: nat)
    requires Power(a) && page > 0 && page % a == 0 && y <= x && x % page == y % page
    ensures AlignUp(x, a) % page == AlignUp(y, a) % page
  {
    var k := PagesApart(x, y, page);
    AlignUpIs(y, a);
    var u, n := AlignUp(y, a), page * k;
    MultipleOfPages(page, k, a);
    SumOfMultiples(u, n, a);
    AlignUnique(x, a, u + n);
    AddPage(u, n, page);
  }

  lemma MultipleOfPages(page: nat, k: nat, a: nat)
    requires page > 0 && a > 0 && page % a == 0
    ensures (page * k) % page == 0 && (page * k) % a == 0
  {
    DivUnique(page * k, page, k, 0);
    MultipleOf(page * k, page, a);
  }

  lemma PlaceIs(c: Cursor, s: Shape, j: nat, d: DataSegment, page: nat)
    requires Power(s.align) && Power(page) && page % s.align == 0
    requires d.start == j ==> Power(d.align) && d.align % page == 0
    ensures var p := Place(c, s, j, d);
      && p.off >= c.off && p.addr >= c.addr
      && p.off % s.align == 0 && p.addr % s.align == 0
      && (c.addr % page == c.off % page ==> p.addr % page == p.off % page)
  {
    AlignUpIs(c.addr, s.align);
    AlignUpIs(c.off, s.align);
    if c.addr % page == c.off % page {
      if c.addr >= c.off { AlignCongruent(c.addr, c.off, s.align, page); }
          else { AlignCongruent(c.off, c.addr, s.align, page); }
    }
    var addr := AlignUp(c.addr, s.align);
    if d.start == j {
      MultipleOf(d.align, page, s.align);
      SumOfMultiples(addr, d.align, s.align);
      AddPage(addr, d.align, page);
    }
  }

  lemma AddPage(x: nat, d: nat, page: nat)
    requires page > 0 && d % page == 0
    ensures (x + d) % page == x % page
  {
    assert d == page * (d / page);
    DivUnique(x + d, page, x / page + d / page, x % page);
  }

  /** Every section is aligned, in memory and in the file. */
  lemma PlacedAligned(shapes: seq<Shape>, d: DataSegment, phnum: nat, page: nat, j: nat)
    requires Aligned(shapes) && Fine(shapes, d, page) && 0 < j < |shapes|
    ensures Placed(shapes, d, phnum, j).off % shapes[j].align == 0 &&
        Placed(shapes, d, phnum, j).addr % shapes[j].align == 0
  {
    PlaceIs(Before(shapes, d, phnum, j), shapes[j], j, d, page);
  }

  /** Where section j ends in the file. */
  ghost function FileEnd(shapes: seq<Shape>, d: DataSegment, phnum: nat, j: nat): nat
    requires Aligned(shapes) && j < |shapes|
  {
    Advance(Placed(shapes, d, phnum, j), shapes[j]).off
  }

  ghost function MemoryEnd(shapes: seq<Shape>, d: DataSegment, phnum: nat, j: nat): nat
    requires Aligned(shapes) && j < |shapes|
  {
    Advance(Placed(shapes, d, phnum, j), shapes[j]).addr
  }

  /** Sections follow each other without overlap, in memory and in the file. */
  lemma {:induction false} PlacedInOrder(shapes: seq<Shape>, d: DataSegment, phnum: nat, page: nat, i: nat, j: nat)
    requires Aligned(shapes) && Fine(shapes, d, page) && 0 < i < j < |shapes|
    ensures FileEnd(shapes, d, phnum, i) <= Placed(shapes, d, phnum, j).off
    ensures MemoryEnd(shapes, d, phnum, i) <= Placed(shapes, d, phnum, j).addr
    decreases j
  {
    PlaceIs(Before(shapes, d, phnum, j), shapes[j], j, d, page);
    if i < j - 1 { PlacedInOrder(shapes, d, phnum, page, i, j - 1); }
  }

  /** No section overlaps the headers. */
  lemma {:induction false} PlacedBehindHeaders(shapes: seq<Shape>, d: DataSegment, phnum: nat, page: nat, j: nat)
    requires Aligned(shapes) && Fine(shapes, d, page) && 0 < j < |shapes|
    ensures Placed(shapes, d, phnum, j).off >= EHDR_SIZE + phnum * PHDR_SIZE
  {
    PlaceIs(Before(shapes, d, phnum, j), shapes[j], j, d, page);
    if j > 1 { PlacedBehindHeaders(shapes, d, phnum, page, j - 1); }
  }

  /** Up to and including the first section without file contents, addresses and file
      offsets are congruent modulo the page size. */
  lemma {:induction false} PlacedCongruent(shapes: seq<Shape>, d: DataSegment, phnum: nat, page: nat, j: nat)
    requires Aligned(shapes) && Fine(shapes, d, page) && 0 < j < |shapes|
    requires forall i :: 0 < i < j ==> !shapes[i].isNobits
    ensures Placed(shapes, d, phnum, j).addr % page == Placed(shapes, d, phnum, j).off % page
  {
    var c := Before(shapes, d, phnum, j);
    if j == 1 {
      FirstCongruent(phnum);
    } else {
      PlacedCongruent(shapes, d, phnum, page, j - 1);
      var p := Placed(shapes, d, phnum, j - 1);
      AddBoth(p.addr, p.off, shapes[j - 1].size, page);
    }
    PlaceIs(c, shapes[j], j, d, page);
  }

  lemma FirstCongruent(phnum: nat)
    ensures First(phnum).addr == First(phnum).off
  {
    var off := EHDR_SIZE + phnum * PHDR_SIZE;
    AndNotLow(off, 2);
    assert Pow2(2) == 4;
    DivUnique(off, 4, 13 + 8 * phnum, 0);
  }

  lemma AddBoth(x: nat, y: nat, n: nat, page: nat)
    requires page > 0 && x % page == y % page
    ensures (x + n) % page == (y + n) % page
  {
    var r := (x % page + n) % page;
    var q := (x % page + n) / page;
    DivUnique(x + n, page, x / page + q, r);
    DivUnique(y + n, page, y / page + q, r);
  }

  // ----- where exactly

  /** x is the first multiple of a that is not below c. */
  ghost predicate Next(x: nat, c: nat, a: nat)
    requires a > 0
  {
    x >= c && x % a == 0 && forall y :: c <= y < x ==> y % a != 0
  }

  lemma AlignUpNext(v: nat, a: nat)
    requires Power(a)
    ensures Next(AlignUp(v, a), v, a)
  {
    AlignUpIs(v, a);
    var x := AlignUp(v, a);
    forall y | v <= y < x ensures y % a != 0 { BetweenMultiples(x, y, a); }
  }

  lemma BetweenMultiples(x: nat, y: nat, a: nat)
    requires a > 0 && x % a == 0 && x - a < y < x
    ensures y % a != 0
  {
    if y % a == 0 {
      Factor(x, a);
      Factor(y, a);
      var k, l := x / a, y / a;
      if l < k { MulLe(a, l + 1, k); } else { MulLe(a, k, l); }
    }
  }

  /** Where the section before section j ends, or the headers. */
  ghost function AddressBefore(shapes: seq<Shape>, d: DataSegment, phnum: nat, j: nat): nat
    requires Aligned(shapes) && 0 < j < |shapes|
  {
    if j == 1 then 52 + 32 * phnum else MemoryEnd(shapes, d, phnum, j - 1)
  }

  ghost function OffsetBefore(shapes: seq<Shape>, d: DataSegment, phnum: nat, j: nat): nat
    requires Aligned(shapes) && 0 < j < |shapes|
  {
    if j == 1 then 52 + 32 * phnum else FileEnd(shapes, d, phnum, j - 1)
  }

  /** Every section is at the first aligned place behind the one before, in the file and in memory.
      Only the first section of the writable data segment, when that place is inside a page of the
      segment, is moved on, by one such page. */
  lemma PlacedNext(shapes: seq<Shape>, d: DataSegment, phnum: nat, page: nat, j: nat) returns (addr: nat)
    requires Aligned(shapes) && Fine(shapes, d, page) && 0 < j < |shapes|
    ensures Next(Placed(shapes, d, phnum, j).off, OffsetBefore(shapes, d, phnum, j), shapes[j].align)
    ensures Next(addr, AddressBefore(shapes, d, phnum, j), shapes[j].align)
    ensures if j == d.start && !shapes[j].isUnplaced && addr % d.align != 0
            then Placed(shapes, d, phnum, j).addr == addr + d.align else Placed(shapes, d, phnum, j).addr == addr
  {
    FirstCongruent(phnum);
    addr := PlaceNext(Before(shapes, d, phnum, j), shapes[j], j, d);
  }

  lemma PlaceNext(c: Cursor, s: Shape, j: nat, d: DataSegment) returns (addr: nat)
    requires Power(s.align) && (d.start == j ==> Power(d.align))
    ensures Next(Place(c, s, j, d).off, c.off, s.align) && Next(addr, c.addr, s.align)
    ensures d.start == j ==> d.align > 0
    ensures if j == d.start && !s.isUnplaced && addr % d.align != 0
            then Place(c, s, j, d).addr == addr + d.align else Place(c, s, j, d).addr == addr
  {
    AlignUpNext(c.addr, s.align);
    AlignUpNext(c.off, s.align);
    addr := AlignUp(c.addr, s.align);
    if j == d.start { MaskIsRemainder(addr, d.align); }
  }

  lemma MaskIsRemainder(x: nat, a: nat)
    requires Power(a)
    ensures a > 0 && And(x, a - 1) == x % a
  {
    var w: nat :| a == Pow2(w);
    AndLow(x, w);
  }

  /** No page of the writable data segment holds both an address of a section before it and one of
      its first section or a later one. */
  lemma DataApart(shapes: seq<Shape>, d: DataSegment, phnum: nat, page: nat, i: nat, k: nat, x: nat, y: nat)
    requires Aligned(shapes) && Fine(shapes, d, page) && 0 < i < d.start <= k < |shapes| && !shapes[d.start].isUnplaced
    requires x < MemoryEnd(shapes, d, phnum, i) && Placed(shapes, d, phnum, k).addr <= y
    ensures d.align > 0 && x / d.align < y / d.align
  {
    var j := d.start;
    var addr := PlacedNext(shapes, d, phnum, page, j);
    var p := Placed(shapes, d, phnum, j).addr;
    BehindIt(shapes, d, phnum, page, i, j - 1);
    BehindIt(shapes, d, phnum, page, j, k);
    MaskIsRemainder(addr, d.align);
    PagesBetween(x, addr, p, y, d.align);
  }

  /** A section begins and ends behind those before it. */
  lemma BehindIt(shapes: seq<Shape>, d: DataSegment, phnum: nat, page: nat, i: nat, j: nat)
    requires Aligned(shapes) && Fine(shapes, d, page) && 0 < i <= j < |shapes|
    ensures MemoryEnd(shapes, d, phnum, i) <= MemoryEnd(shapes, d, phnum, j)
    ensures Placed(shapes, d, phnum, i).addr <= Placed(shapes, d, phnum, j).addr
  {
    if i < j { PlacedInOrder(shapes, d, phnum, page, i, j); }
  }

  lemma PagesBetween(x: nat, addr: nat, p: nat, y: nat, a: nat)
    requires a > 0 && x < addr && p <= y && p == if addr % a != 0 then addr + a else addr
    ensures x / a < y / a
  {
    DivMod(addr, a);
    var q := addr / a;
    assert a * (q + 1) == a * q + a;
    if addr % a == 0 {
      QuotientBelow(x, a, q);
      QuotientAtLeast(y, a, q);
    } else {
      QuotientBelow(x, a, q + 1);
      QuotientAtLeast(y, a, q + 1);
    }
  }

  lemma QuotientBelow(x: nat, a: nat, q: nat)
    requires a > 0 && x < a * q
    ensures x / a < q
  {
    DivMod(x, a);
    if x / a >= q { MulLe(a, q, x / a); }
  }

  lemma QuotientAtLeast(x: nat, a: nat, q: nat)
    requires a > 0 && x >= a * q
    ensures x / a >= q
  {
    DivMod(x, a);
    if x / a < q { MulLe(a, x / a + 1, q); }
  }

  // ----- layout_sections2

  /** A program header; `members` are the sections that it covers. */
  datatype Segment = Segment(isLoad: bool, isWritable: bool, align: nat, members: set<nat>)

  ghost predicate HoldsData(seg: Segment, j: nat) {
    seg.isLoad && seg.isWritable && j in seg.members
  }

  /** The first section, in order of segments, of a writable segment that is loaded. */
  method FindDataSegment(segments: seq<Segment>, n: nat) returns (d: DataSegment)
    ensures d.start == 0 ==> forall i, j :: 0 <= i < |segments| && 1 <= j < n ==> !HoldsData(segments[i], j)
    ensures d.start > 0 ==> d.start < n && exists i :: 0 <= i < |segments| && FirstData(segments, n, i, d)
  {
    d := DataSegment(0, 0);
    var i := 0;
    while i < |segments|
      invariant 0 <= i <= |segments|
      invariant d.start == 0 ==> forall k, j :: 0 <= k < i && 1 <= j < n ==> !HoldsData(segments[k], j)
      invariant d.start > 0 ==> d.start < n && exists k :: 0 <= k < |segments| && FirstData(segments, n, k, d)
    {
      var j := 1;
      while j < n
        invariant 1 <= j
        invariant d.start == 0 ==> forall k, l :: 0 <= k < i && 1 <= l < n ==> !HoldsData(segments[k], l)
        invariant d.start == 0 ==> forall l :: 1 <= l < j && l < n ==> !HoldsData(segments[i], l)
        invariant d.start > 0 ==> d.start < n && exists k :: 0 <= k < |segments| && FirstData(segments, n, k, d)
      {
        if j in segments[i].members {
          if segments[i].isLoad && segments[i].isWritable && d.start == 0 {
            d := DataSegment(j, segments[i].align);
            assert FirstData(segments, n, i, d);
          }
        }
        j := j + 1;
      }
      i := i + 1;
    }
  }

  ghost predicate FirstData(segments: seq<Segment>, n: nat, i: nat, d: DataSegment)
    requires i < |segments|
  {
    && d.align == segments[i].align && HoldsData(segments[i], d.start)
    && (forall j :: 1 <= j < d.start ==> !HoldsData(segments[i], j))
    && (forall k, j :: 0 <= k < i && 1 <= j < n ==> !HoldsData(segments[k], j))
  }

  /** layout_sections2: every section gets its file offset, and its address unless it has none. */
  method LayoutSections(sections: seq<Section>, segments: seq<Segment>) returns (end: nat, ghost d: DataSegment)
    requires |sections| > 1 && forall i, j :: 0 <= i < j < |sections| ==> sections[i] != sections[j]
    requires Aligned(Shapes(sections))
    modifies sections
    ensures d.start == 0 ==> forall i, j :: 0 <= i < |segments| && 1 <= j < |sections| ==> !HoldsData(segments[i], j)
    ensures d.start > 0 ==> exists i :: 0 <= i < |segments| && FirstData(segments, |sections|, i, d)
    ensures forall j :: 1 <= j < |sections| ==> LaidOut(sections, d, |segments|, j)
    ensures forall j :: 1 <= j < |sections| && sections[j].IsUnplaced() ==>
        sections[j].shAddr == old(sections[j].shAddr)
    ensures end == AlignUp(sections[|sections| - 1].shOffset + sections[|sections| - 1].shSize, 4)
  {
    var data := FindDataSegment(segments, |sections|);
    d := data;
    ghost var shapes, phnum := Shapes(sections), |segments|;
    ghost var addresses := Addresses(sections);
    var fileOffset: nat := EHDR_SIZE + |segments| * PHDR_SIZE;
    var addr: nat := AndNot(fileOffset, 3);
    var j := 1;
    while j < |sections|
      invariant 1 <= j <= |sections|
      invariant Cursor(addr, fileOffset) == Before(shapes, d, phnum, j)
      invariant LaidOutTo(sections, d, phnum, j) && AddressesKept(sections, addresses, j)
    {
      addr, fileOffset := PlaceNumber(sections[j], sections, j, data, addr, fileOffset, shapes, phnum, addresses);
      j := j + 1;
    }
    var last := sections[|sections| - 1];
    end := AlignUp(last.shOffset + last.shSize, 4);
  }

  ghost function Addresses(sections: seq<Section>): (r: seq<nat>)
    reads sections
    ensures |r| == |sections| && forall i :: 0 <= i < |sections| ==> r[i] == sections[i].shAddr
  {
    if sections == [] then [] else Addresses(sections[..|sections| - 1]) + [sections[|sections| - 1].shAddr]
  }

  ghost predicate LaidOutTo(sections: seq<Section>, d: DataSegment, phnum: nat, n: nat)
    requires n <= |sections| && Aligned(Shapes(sections))
    reads sections
  {
    forall i :: 1 <= i < n ==> LaidOut(sections, d, phnum, i)
  }

  /** Sections from n on, and those that get none, have the addresses that they had. */
  ghost predicate AddressesKept(sections: seq<Section>, addresses: seq<nat>, n: nat)
    reads sections
  {
    && |addresses| == |sections|
    && forall i :: 1 <= i < |sections| && (i >= n || sections[i].IsUnplaced()) ==> sections[i].shAddr == addresses[i]
  }

  method PlaceNumber(s: Section, sections: seq<Section>, j: nat, data: DataSegment, addr0: nat, fileOffset0: nat,
      ghost shapes: seq<Shape>, ghost phnum: nat, ghost addresses: seq<nat>)
    returns (addr: nat, fileOffset: nat)
    requires 1 <= j < |sections| && s == sections[j]
    requires forall i, k :: 0 <= i < k < |sections| ==> sections[i] != sections[k]
    requires shapes == Shapes(sections) && Aligned(shapes)
    requires Cursor(addr0, fileOffset0) == Before(shapes, data, phnum, j)
    requires LaidOutTo(sections, data, phnum, j) && AddressesKept(sections, addresses, j)
    modifies s`shAddr, s`shOffset
    ensures LaidOutTo(sections, data, phnum, j + 1) && AddressesKept(sections, addresses, j + 1)
    ensures Cursor(addr, fileOffset) == Before(shapes, data, phnum, j + 1)
  {
    assert shapes[j].align > 0;
    addr, fileOffset := PlaceSection(s, sections, j, data, addr0, fileOffset0, shapes, phnum);
  }

  /** The body of the loop of layout_sections2. */
  method PlaceSection(s: Section, sections: seq<Section>, j: nat, data: DataSegment, addr0: nat, fileOffset0: nat,
      ghost shapes: seq<Shape>, ghost phnum: nat)
    returns (addr: nat, fileOffset: nat)
    requires 1 <= j < |sections| && s == sections[j] && shapes == Shapes(sections) && Aligned(shapes) &&
        shapes[j].align > 0
    requires Cursor(addr0, fileOffset0) == Before(shapes, data, phnum, j)
    modifies s`shAddr, s`shOffset
    ensures LaidOut(sections, data, phnum, j) &&
        (sections[j].IsUnplaced() ==> sections[j].shAddr == old(sections[j].shAddr))
    ensures Cursor(addr, fileOffset) == Before(shapes, data, phnum, j + 1)
  {
    addr, fileOffset := addr0, fileOffset0;
    addr := AlignUp(addr, s.shAddralign);
    fileOffset := AlignUp(fileOffset, s.shAddralign);
    if !s.IsUnplaced() {
      if data.start == j && data.align > 0 && And(addr, data.align - 1) != 0 { addr := addr + data.align; }
      s.shAddr := addr;
    }
    s.shOffset := fileOffset;
    addr := addr + s.shSize;
    if !s.isNobits { fileOffset := fileOffset + s.shSize; }
  }

  ghost predicate LaidOut(sections: seq<Section>, d: DataSegment, phnum: nat, j: nat)
    requires j < |sections| && Aligned(Shapes(sections))
    reads sections[j]
  {
    var p := Placed(Shapes(sections), d, phnum, j);
    sections[j].shOffset == p.off && (!sections[j].IsUnplaced() ==> sections[j].shAddr == p.addr)
  }

  // ----- dobc_output_elf

  /** The section's contents are in the file where its header says. */
  ghost predicate Written(f: seq<Byte>, s: Section)
    reads s
  {
    s.shOffset + s.shSize <= |f| && s.shSize <= |s.data| && f[s.shOffset..s.shOffset + s.shSize] == s.data[..s.shSize]
  }

  /** The sections from i on start at or behind position pos. */
  ghost predicate StartBehind(sections: seq<Section>, i: nat, pos: nat)
    reads sections
  {
    forall j :: i <= j < |sections| && !sections[j].isNobits ==> pos <= sections[j].shOffset
  }

  ghost predicate InFileOrder(sections: seq<Section>)
    reads sections
  {
    forall i :: 1 <= i < |sections| && !sections[i].isNobits ==>
      |sections[i].data| >= sections[i].shSize &&
          StartBehind(sections, i + 1, sections[i].shOffset + sections[i].shSize)
  }

  method PadTo(f0: seq<Byte>, pos: nat) returns (f: seq<Byte>)
    ensures f0 <= f && |f| == (if |f0| < pos then pos else |f0|) && forall p :: |f0| <= p < |f| ==> f[p] == 0
  {
    f := f0;
    while |f| < pos
      invariant f0 <= f && (|f0| >= pos ==> f == f0) && (|f0| < pos ==> |f| <= pos)
      invariant forall p :: |f0| <= p < |f| ==> f[p] == 0
    {
      f := f + [0];
    }
  }

  /** dobc_output_elf: the headers, the sections' contents where they belong, the section headers. */
  method OutputElf(sections: seq<Section>, ehdr: seq<Byte>, phdrs: seq<Byte>, table: seq<Byte>, fileOffset: nat)
      returns (f: seq<Byte>, shoff: nat)
    requires InFileOrder(sections) && StartBehind(sections, 1, |ehdr| + |phdrs|) && |ehdr| + |phdrs| <= fileOffset
    requires forall i :: 1 <= i < |sections| && !sections[i].isNobits ==>
        sections[i].shOffset + sections[i].shSize <= fileOffset
    ensures ehdr + phdrs <= f
    ensures forall i :: 1 <= i < |sections| && !sections[i].isNobits ==> Written(f, sections[i])
    ensures shoff == AndNot(fileOffset + 3, 3) && |f| == shoff + |table| && f[shoff..] == table
    ensures ZeroBetween(f[..shoff], sections, |ehdr| + |phdrs|, |sections|)
  {
    shoff := AndNot(fileOffset + 3, 3);
    AndNotLow(fileOffset + 3, 2);
    assert Pow2(2) == 4;
    f := WriteSections(sections, ehdr + phdrs, fileOffset);
    ghost var contents := f;
    f := PadTo(f, shoff);
    ghost var padded := f;
    f := f + table;
    assert f[..shoff] == padded;
    WrittenStays(contents, f, sections, |sections|);
  }

  /** The loop over the sections. */
  method WriteSections(sections: seq<Section>, headers: seq<Byte>, fileOffset: nat) returns (f: seq<Byte>)
    requires InFileOrder(sections) && StartBehind(sections, 1, |headers|) && |headers| <= fileOffset
    requires forall i :: 1 <= i < |sections| && !sections[i].isNobits ==>
        sections[i].shOffset + sections[i].shSize <= fileOffset
    ensures headers <= f && |f| <= fileOffset && WrittenTo(f, sections, |sections|)
    ensures ZeroBetween(f, sections, |headers|, |sections|)
  {
    f := headers;
    var i := 1;
    while i < |sections|
      invariant 1 <= i && headers <= f && |f| <= fileOffset && StartBehind(sections, i, |f|)
      invariant WrittenTo(f, sections, i) && ZeroBetween(f, sections, |headers|, i)
    {
      if !sections[i].isNobits {
        ghost var g := f;
        f := WriteSection(f, sections[i]);
        WrittenStays(g, f, sections, i);
      }
      i := i + 1;
    }
  }

  /** Byte p of the file belongs to one of the sections below n. */
  ghost predicate InSection(sections: seq<Section>, n: nat, p: nat)
    reads sections
  {
    exists i :: 1 <= i < n && i < |sections| && !sections[i].isNobits &&
      sections[i].shOffset <= p < sections[i].shOffset + sections[i].shSize
  }

  /** From position `from` on, every byte that belongs to no section below n is zero. */
  ghost predicate ZeroBetween(f: seq<Byte>, sections: seq<Section>, from: nat, n: nat)
    reads sections
  {
    forall p :: from <= p < |f| && !InSection(sections, n, p) ==> f[p] == 0
  }

  /** The contents of the sections below n are written. */
  ghost predicate WrittenTo(f: seq<Byte>, sections: seq<Section>, n: nat)
    reads sections
  {
    forall j :: 1 <= j < n && j < |sections| && !sections[j].isNobits ==> Written(f, sections[j])
  }

  lemma WrittenStays(f: seq<Byte>, g: seq<Byte>, sections: seq<Section>, n: nat)
    requires f <= g && WrittenTo(f, sections, n)
    ensures WrittenTo(g, sections, n)
  {
    forall j | 1 <= j < n && j < |sections| && !sections[j].isNobits ensures Written(g, sections[j]) {
      var s := sections[j];
      assert Written(f, s);
      assert g[s.shOffset..s.shOffset + s.shSize] == f[s.shOffset..s.shOffset + s.shSize];
    }
  }

  method WriteSection(f0: seq<Byte>, s: Section) returns (f: seq<Byte>)
    requires |f0| <= s.shOffset && s.shSize <= |s.data|
    ensures f0 <= f && |f| == s.shOffset + s.shSize && Written(f, s)
    ensures forall p :: |f0| <= p < s.shOffset ==> f[p] == 0
  {
    f := PadTo(f0, s.shOffset);
    f := f + s.data[..s.shSize];
  }

  // ----- elf_output_file

  lemma LayoutInFileOrder(sections: seq<Section>, d: DataSegment, phnum: nat, page: nat)
    requires Aligned(Shapes(sections)) && Fine(Shapes(sections), d, page)
    requires forall j :: 1 <= j < |sections| ==> LaidOut(sections, d, phnum, j)
    requires forall j :: 1 <= j < |sections| && !sections[j].isNobits ==> |sections[j].data| >= sections[j].shSize
    ensures InFileOrder(sections) && StartBehind(sections, 1, EHDR_SIZE + phnum * PHDR_SIZE)
    ensures |sections| > 1 ==> forall i :: 1 <= i < |sections| && !sections[i].isNobits ==>
      sections[i].shOffset + sections[i].shSize <= sections[|sections| - 1].shOffset + sections[|sections| - 1].shSize
  {
    var shapes := Shapes(sections);
    forall i, j | 1 <= i < j < |sections| && !sections[i].isNobits
      ensures sections[i].shOffset + sections[i].shSize <= sections[j].shOffset
    {
      assert LaidOut(sections, d, phnum, i) && LaidOut(sections, d, phnum, j);
      PlacedInOrder(shapes, d, phnum, page, i, j);
    }
    forall j | 1 <= j < |sections| ensures EHDR_SIZE + phnum * PHDR_SIZE <= sections[j].shOffset {
      assert LaidOut(sections, d, phnum, j);
      PlacedBehindHeaders(shapes, d, phnum, page, j);
    }
  }

  /** Layout and output: the file holds every section's contents at the offset that the layout
      gave it, behind the headers and before the section headers. */
  method OutputFile(sections: seq<Section>, segments: seq<Segment>, ehdr: seq<Byte>, phdrs: seq<Byte>,
      table: seq<Byte>, ghost page: nat)
    returns (f: seq<Byte>, shoff: nat, ghost d: DataSegment)
    requires |sections| > 1 && forall i, j :: 0 <= i < j < |sections| ==> sections[i] != sections[j]
    requires forall j :: 1 <= j < |sections| && !sections[j].isNobits ==> |sections[j].data| >= sections[j].shSize
    requires |ehdr| == EHDR_SIZE && |phdrs| == |segments| * PHDR_SIZE
    requires Fine(Shapes(sections), DataSegment(0, 0), page)
    requires forall i :: 0 <= i < |segments| && segments[i].isLoad && segments[i].isWritable ==>
        SegmentFine(segments[i], page)
    modifies sections
    ensures ehdr + phdrs <= f && |f| == shoff + |table| && f[shoff..] == table
    ensures ZeroBetween(f[..shoff], sections, |ehdr| + |phdrs|, |sections|)
    ensures Fine(Shapes(sections), d, page)
    ensures forall j :: 1 <= j < |sections| ==> LaidOut(sections, d, |segments|, j)
    ensures forall j :: 1 <= j < |sections| && !sections[j].isNobits ==> Written(f, sections[j])
  {
    var end;
    assert Aligned(Shapes(sections));
    end, d := LayoutSections(sections, segments);
    DataFine(Shapes(sections), segments, d, page);
    LayoutInFileOrder(sections, d, |segments|, page);
    ghost var last := sections[|sections| - 1];
    EndOfFile(last.shOffset + last.shSize);
    LayoutNotEmpty(sections, d, |segments|, page);
    f, shoff := OutputElf(sections, ehdr, phdrs, table, end);
  }

  ghost predicate SegmentFine(seg: Segment, page: nat)
    requires page > 0
  {
    Power(seg.align) && seg.align % page == 0
  }

  lemma DataFine(shapes: seq<Shape>, segments: seq<Segment>, d: DataSegment, page: nat)
    requires Fine(shapes, DataSegment(0, 0), page)
    requires forall i :: 0 <= i < |segments| && segments[i].isLoad && segments[i].isWritable ==>
        SegmentFine(segments[i], page)
    requires d.start > 0 ==> exists i :: 0 <= i < |segments| && FirstData(segments, |shapes|, i, d)
    ensures Fine(shapes, d, page)
  {
    if d.start > 0 {
      var i :| 0 <= i < |segments| && FirstData(segments, |shapes|, i, d);
      assert SegmentFine(segments[i], page);
    }
  }

  lemma EndOfFile(pos: nat)
    ensures AlignUp(pos, 4) >= pos
  {
    assert Pow2(2) == 4 && Power(4);
    AlignUpIs(pos, 4);
  }

  lemma LayoutNotEmpty(sections: seq<Section>, d: DataSegment, phnum: nat, page: nat)
    requires Aligned(Shapes(sections)) && Fine(Shapes(sections), d, page) && |sections| > 1
    requires LaidOut(sections, d, phnum, |sections| - 1)
    ensures EHDR_SIZE + phnum * PHDR_SIZE <= sections[|sections| - 1].shOffset
  {
    PlacedBehindHeaders(Shapes(sections), d, phnum, page, |sections| - 1);
  }
}
