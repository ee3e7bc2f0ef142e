/** The ELF symbol table with its string table and hash section. */
module SymbolHash {
  import opened Bits

  /** A C string, without its terminator. */
  type Name = s: seq<Byte> | 0 !in s

  const STB_LOCAL: nat := 0

  /** The width of unsigned long on the machine that writes the file. */
  const LONG_BITS: nat := 64

  datatype Sym = Sym(name: nat, value: nat, size: nat, info: Byte, other: nat, shndx: nat) {
    function Bind(): nat { Shr(info, 4) }
  }

  function Xor(x: nat, y: nat): nat
    decreases x + y
  {
    if x == 0 then y else if y == 0 then x
    else 2 * Xor(x / 2, y / 2) + (if x % 2 != y % 2 then 1 else 0)
  }

  /** The body of elf_hash's loop, for one character. */
  function HashStep(h: nat, c: Byte): nat {
    HashFold((Shl(h, 4) + c) % Pow2(LONG_BITS))
  }

  function HashFold(h: nat): nat {
    var g := And(h, 0xf0000000);
    AndNot(if g != 0 then Xor(h, Shr(g, 24)) else h, g)
  }

  /** elf_hash from an intermediate hash value. */
  function HashFrom(h: nat, name: Name): nat
    decreases |name|
  {
    if name == [] then h else HashFrom(HashStep(h, name[0]), name[1..])
  }

  function ElfHash(name: Name): nat {
    HashFrom(0, name)
  }

  // ----- strings in the string table

  /** The C string at an offset. */
  function CString(strtab: seq<Byte>, off: nat): Name
    decreases |strtab| - off
  {
    if off >= |strtab| || strtab[off] == 0 then [] else [strtab[off]] + CString(strtab, off + 1)
  }

  ghost predicate Terminated(strtab: seq<Byte>) {
    strtab != [] && strtab[0] == 0 && strtab[|strtab| - 1] == 0
  }

  /** A string reads back unchanged after more bytes are added. */
  lemma {:induction false} StringStays(strtab: seq<Byte>, more: seq<Byte>, off: nat)
    requires Terminated(strtab) && off < |strtab|
    ensures CString(strtab + more, off) == CString(strtab, off)
    decreases |strtab| - off
  {
    assert (strtab + more)[off] == strtab[off];
    if strtab[off] != 0 { StringStays(strtab, more, off + 1); }
  }

  /** A string put at the end of the table reads back. */
  lemma {:induction false} StringAdded(strtab: seq<Byte>, name: Name)
    ensures CString(strtab + name + [0], |strtab|) == name
    decreases |name|
  {
    var t := strtab + name + [0];
    if name == [] {
      assert t[|strtab|] == 0;
    } else {
      assert t[|strtab|] == name[0];
      assert t == (strtab + [name[0]]) + name[1..] + [0];
      StringAdded(strtab + [name[0]], name[1..]);
    }
  }

  // ----- the symbols by name

  datatype Entry = Entry(name: Name, isGlobal: bool)

  ghost function Entries(syms: seq<Sym>, strtab: seq<Byte>): (es: seq<Entry>)
    ensures |es| == |syms|
    ensures forall i :: 0 <= i < |syms| ==> es[i] == EntryOf(syms[i], strtab)
  {
    seq(|syms|, i requires 0 <= i < |syms| => EntryOf(syms[i], strtab))
  }

  ghost function EntryOf(s: Sym, strtab: seq<Byte>): Entry {
    Entry(CString(strtab, s.name), s.Bind() != STB_LOCAL)
  }

  ghost predicate Named(e: Entry, name: Name) {
    e.isGlobal && e.name == name
  }

  /** The latest symbol below n, but not the first one, that is not local and has this name, or 0. */
  ghost function Latest(es: seq<Entry>, n: nat, name: Name): (k: nat)
    requires n <= |es|
    ensures k == 0 || k < n
  {
    if n <= 1 then 0 else if Named(es[n - 1], name) then n - 1 else Latest(es, n - 1, name)
  }

  lemma {:induction false} LatestIs(es: seq<Entry>, n: nat, name: Name)
    requires n <= |es|
    ensures Latest(es, n, name) == 0 <==> forall i :: 1 <= i < n ==> !Named(es[i], name)
    ensures Latest(es, n, name) > 0 ==> Named(es[Latest(es, n, name)], name)
    ensures forall i :: Latest(es, n, name) < i < n && i > 0 ==> !Named(es[i], name)
  {
    if n > 1 { LatestIs(es, n - 1, name); }
  }

  ghost predicate InBucket(e: Entry, nb: nat, h: nat)
    requires nb > 0
  {
    e.isGlobal && ElfHash(e.name) % nb == h
  }

  /** The latest symbol below n in bucket h of nb, or 0. */
  ghost function LastIn(es: seq<Entry>, n: nat, nb: nat, h: nat): (k: nat)
    requires n <= |es| && nb > 0
    ensures k == 0 || k < n
  {
    if n <= 1 then 0 else if InBucket(es[n - 1], nb, h) then n - 1 else LastIn(es, n - 1, nb, h)
  }

  lemma {:induction false} LastInPrefix(es: seq<Entry>, fs: seq<Entry>, n: nat, nb: nat, h: nat)
    requires n <= |es| && nb > 0 && es <= fs
    ensures LastIn(fs, n, nb, h) == LastIn(es, n, nb, h)
  {
    if n > 1 { LastInPrefix(es, fs, n - 1, nb, h); }
  }

  /** Only the latest symbol of the name's bucket, or earlier ones, can be the latest of that name. */
  lemma {:induction false} Skip(es: seq<Entry>, n: nat, nb: nat, name: Name)
    requires n <= |es| && nb > 0
    ensures var k := LastIn(es, n, nb, ElfHash(name) % nb);
      Latest(es, n, name) == if k == 0 then 0 else if es[k].name == name then k else Latest(es, k, name)
  {
    if n > 1 { Skip(es, n - 1, nb, name); }
  }

  /** What the chain array holds for symbol i. */
  ghost function ChainOf(es: seq<Entry>, i: nat, nb: nat): nat
    requires i < |es| && nb > 0
  {
    if es[i].isGlobal then LastIn(es, i, nb, ElfHash(es[i].name) % nb) else 0
  }

  /** The hash section indexes the symbols: bucket count, symbol count, buckets, chains. */
  ghost predicate Indexed(hash: seq<int>, es: seq<Entry>) {
    && |hash| >= 2 && hash[0] > 0 && hash[1] == |es|
    && |hash| == 2 + hash[0] + |es|
    && IndexedTo(hash, es, |es|, hash[0])
  }

  /** The same for the symbols below n. */
  ghost predicate IndexedTo(hash: seq<int>, es: seq<Entry>, n: nat, nb: nat) {
    && nb > 0 && n <= |es| && |hash| >= 2 + nb + n
    && (forall h :: 0 <= h < nb ==> BucketIs(hash, es, n, nb, h))
    && (forall i :: 1 <= i < n ==> ChainIs(hash, es, i, nb))
  }

  ghost predicate BucketIs(hash: seq<int>, es: seq<Entry>, n: nat, nb: nat, h: nat)
    requires 0 < nb && n <= |es| && h < nb <= |hash| - 2
  {
    hash[2 + h] == LastIn(es, n, nb, h)
  }

  ghost predicate ChainIs(hash: seq<int>, es: seq<Entry>, i: nat, nb: nat)
    requires 0 < nb && i < |es| && 2 + nb + i < |hash|
  {
    hash[2 + nb + i] == ChainOf(es, i, nb)
  }

  /** The hash section is in order; there are at most two hashed symbols for a bucket. */
  ghost predicate HashValid(hash: seq<int>, count: nat, es: seq<Entry>) {
    Indexed(hash, es) && count == GlobalCount(es, |es|) <= 2 * hash[0]
  }

  ghost predicate NamesValid(syms: seq<Sym>, strtab: seq<Byte>) {
    && Terminated(strtab) && |syms| > 0
    && forall i :: 0 <= i < |syms| ==> syms[i].name < |strtab|
  }

  ghost function GlobalCount(es: seq<Entry>, n: nat): nat
    requires n <= |es|
  {
    if n <= 1 then 0 else GlobalCount(es, n - 1) + if es[n - 1].isGlobal then 1 else 0
  }

  class SymbolTable {
    var syms: seq<Sym>
    var strtab: seq<Byte>
    var hash: seq<int>       // [] while there is no hash section
    var nbHashed: nat

    ghost predicate Valid()
      reads this
    {
      NamesValid(syms, strtab) && (hash != [] ==> HashValid(hash, nbHashed, Table()))
    }

    ghost function Table(): (es: seq<Entry>)
      reads this`syms, this`strtab
      ensures |es| == |syms|
    {
      Entries(syms, strtab)
    }

    /** new_symtab: the null symbol and a hash section with one bucket. */
    constructor ()
      ensures Valid() && hash != [] && Table() == [Entry([], false)]
    {
      strtab := [0];
      syms := [Sym(0, 0, 0, 0, 0, 0)];
      hash := [1, 1, 0, 0];
      nbHashed := 0;
      new;
      assert Table() == [Entry([], false)];
    }

    /** find_elf_sym: the latest non-local symbol of that name, or 0. */
    method Find(name: Name) returns (index: nat)
      requires Valid()
      ensures index == if hash == [] then 0 else Latest(Table(), |Table()|, name)
    {
      if hash == [] { return 0; }
      var nb := hash[0];
      var h := ElfHash(name) % nb;
      var i := hash[2 + h];
      ghost var es := Table();
      ghost var n: nat := |es|;
      assert BucketIs(hash, es, n, nb, h);
      Skip(es, n, nb, name);
      while i != 0
        invariant n <= |es| && 0 <= i < |es| && i == LastIn(es, n, nb, h)
        invariant Latest(es, |es|, name) == Latest(es, n, name)
        invariant i == 0 ==> Latest(es, n, name) == 0
        decreases i
      {
        FindStep(hash, es, n, nb, i, name);
        if CString(strtab, syms[i].name) == name { return i; }
        n := i;
        i := hash[2 + nb + i];
      }
      index := 0;
    }

    /** The first half of rebuild_hash: room for all symbols, and empty buckets. */
    method ClearBuckets(nb: nat)
      requires nb > 0 && |syms| > 0
      modifies this`hash
      ensures |hash| == 2 + nb + |syms| && hash[0] == nb && hash[1] == |syms|
      ensures forall b :: 2 <= b < 2 + nb ==> hash[b] == 0
    {
      hash := Resized(hash, 2 + nb + |syms|);
      hash := hash[0 := nb][1 := |syms|];
      var h := 0;
      while h < nb + 1
        invariant 0 <= h <= nb + 1 && |hash| == 2 + nb + |syms| && hash[0] == nb && hash[1] == |syms|
        invariant forall b :: 2 <= b < 2 + h ==> hash[b] == 0
      {
        hash := hash[2 + h := 0];
        h := h + 1;
      }
    }

    /** rebuild_hash: index the symbols anew with the given number of buckets, or with as
        many as before when it is 0. */
    method Rebuild(buckets: nat)
      requires hash != [] && |syms| > 0 && (buckets == 0 ==> hash[0] > 0)
      modifies this`hash
      ensures Indexed(hash, Table()) && hash[0] == if buckets == 0 then old(hash[0]) else buckets
    {
      var nb := if buckets == 0 then hash[0] else buckets;
      ClearBuckets(nb);
      ghost var es := Table();
      var i := 1;
      while i < |syms|
        invariant 1 <= i <= |syms| && |hash| == 2 + nb + |syms| && hash[0] == nb && hash[1] == |syms|
        invariant IndexedTo(hash, es, i, nb)
      {
        assert es[i] == EntryOf(syms[i], strtab);
        ghost var before := hash;
        if syms[i].Bind() != STB_LOCAL {
          var h := ElfHash(CString(strtab, syms[i].name)) % nb;
          hash := hash[2 + nb + i := hash[2 + h]];
          hash := hash[2 + h := i];
        } else {
          hash := hash[2 + nb + i := 0];
        }
        IndexStep(before, hash, es, i, nb);
        i := i + 1;
      }
    }

    /** put_elf_sym: add a symbol; its number is returned. */
    method Put(value: nat, size: nat, info: Byte, other: nat, shndx: nat, name: Name) returns (index: nat)
      requires Valid()
      modifies this
      ensures Valid() && index == |old(syms)| && (hash == [] <==> old(hash) == [])
      ensures |syms| == index + 1 && syms[..index] == old(syms)
      ensures syms[index] == Sym(syms[index].name, value, size, info, other, shndx)
      ensures Table() == old(Table()) + [Entry(name, info >= 16)]
      ensures hash != [] ==> nbHashed == old(nbHashed) + if info >= 16 then 1 else 0
      ensures hash != [] ==> hash[0] == if nbHashed > 2 * old(hash[0]) then 2 * old(hash[0]) else old(hash[0])
    {
      BindIs(info);
      ghost var es, syms0, strtab0 := Table(), syms, strtab;
      var off := 0;
      if name != [] {
        off := |strtab|;
        strtab := strtab + name + [0];
      }
      index := |syms|;
      syms := syms + [Sym(off, value, size, info, other, shndx)];
      TableGrows(syms0, strtab0, strtab, syms[index], name);
      if hash != [] { Hash(info, off, index, es); }
    }

    /** The second half of put_elf_sym: enter the new symbol into the hash section. */
    method Hash(info: Byte, off: nat, index: nat, ghost es: seq<Entry>)
      requires hash != [] && HashValid(hash, nbHashed, es) && |es| == index && |syms| == index + 1 && index > 0
      requires Table() == es + [Entry(CString(strtab, off), Shr(info, 4) != STB_LOCAL)]
      modifies this`hash, this`nbHashed
      ensures hash != [] && HashValid(hash, nbHashed, Table())
      ensures nbHashed == old(nbHashed) + if Shr(info, 4) != STB_LOCAL then 1 else 0
      ensures hash[0] == if nbHashed > 2 * old(hash[0]) then 2 * old(hash[0]) else old(hash[0])
    {
      var nb := hash[0];
      ghost var fs := Table();
      IndexGrows(hash, 0, es, fs, nb);
      hash := hash + [0];
      ghost var before := hash;
      if Shr(info, 4) != STB_LOCAL {
        var h := ElfHash(CString(strtab, off)) % nb;
        hash := hash[|hash| - 1 := hash[2 + h]];
        hash := hash[2 + h := index];
        hash := hash[1 := hash[1] + 1];
        IndexStep(before, hash, fs, index, nb);
        nbHashed := nbHashed + 1;
        if nbHashed > 2 * nb { Rebuild(2 * nb); }
      } else {
        hash := hash[|hash| - 1 := 0];
        hash := hash[1 := hash[1] + 1];
        IndexStep(before, hash, fs, index, nb);
      }
      CountGrows(es, fs, index);
    }
  }

  lemma {:induction false} CountGrows(es: seq<Entry>, fs: seq<Entry>, n: nat)
    requires n <= |es| && es <= fs
    ensures GlobalCount(fs, n) == GlobalCount(es, n)
  {
    if n > 1 { CountGrows(es, fs, n - 1); }
  }

  /** The binding is in the upper four bits; only local symbols have none of them set. */
  lemma BindIs(info: Byte)
    ensures Shr(info, 4) == info / 16 && (Shr(info, 4) != STB_LOCAL <==> info >= 16)
  {
    assert Pow2(4) == 16;
    ShrDiv(info, 4);
  }

  /** Section memory is not cleared when it is reused; memory that is new is zero. */
  function Resized(data: seq<int>, n: nat): (r: seq<int>)
    ensures |r| == n
  {
    if n <= |data| then data[..n] else data + seq(n - |data|, _ => 0)
  }

  /** Entering symbol n into the index of the symbols below it. */
  lemma IndexStep(before: seq<int>, hash: seq<int>, es: seq<Entry>, n: nat, nb: nat)
    requires IndexedTo(before, es, n, nb) && 1 <= n < |es| && |hash| == |before| > 2 + nb + n
    requires var e := es[n]; var h := ElfHash(e.name) % nb;
      && (forall i :: 2 <= i < |hash| && i != 2 + h && i != 2 + nb + n ==> hash[i] == before[i])
      && hash[2 + nb + n] == (if e.isGlobal then before[2 + h] else 0)
      && hash[2 + h] == (if e.isGlobal then n else before[2 + h])
    ensures IndexedTo(hash, es, n + 1, nb)
  {
    var m := n + 1;
    forall b | 0 <= b < nb ensures BucketIs(hash, es, m, nb, b) {
      assert BucketIs(before, es, n, nb, b);
    }
    assert BucketIs(before, es, n, nb, ElfHash(es[n].name) % nb);
    forall i | 1 <= i < m ensures ChainIs(hash, es, i, nb) {
      if i < n { assert ChainIs(before, es, i, nb); }
    }
  }

  /** The index of the old symbols is one of the first |es| among the new symbols. */
  lemma IndexGrows(hash: seq<int>, c: int, es: seq<Entry>, fs: seq<Entry>, nb: nat)
    requires es <= fs && IndexedTo(hash, es, |es|, nb)
    ensures IndexedTo(hash + [c], fs, |es|, nb)
  {
    forall h | 0 <= h < nb ensures BucketIs(hash + [c], fs, |es|, nb, h) {
      assert BucketIs(hash, es, |es|, nb, h);
      LastInPrefix(es, fs, |es|, nb, h);
    }
    forall i | 1 <= i < |es| ensures ChainIs(hash + [c], fs, i, nb) {
      assert ChainIs(hash, es, i, nb) && fs[i] == es[i];
      LastInPrefix(es, fs, i, nb, ElfHash(es[i].name) % nb);
    }
  }

  /** Adding a symbol leaves the earlier names as they were. */
  lemma TableGrows(syms: seq<Sym>, strtab: seq<Byte>, strtab': seq<Byte>, s: Sym, name: Name)
    requires Terminated(strtab) && forall i :: 0 <= i < |syms| ==> syms[i].name < |strtab|
    requires if name == [] then strtab' == strtab && s.name == 0
        else strtab' == strtab + name + [0] && s.name == |strtab|
    ensures Terminated(strtab') && |strtab| <= |strtab'| && s.name < |strtab'|
    ensures CString(strtab', s.name) == name
    ensures Entries(syms + [s], strtab') == Entries(syms, strtab) + [Entry(name, s.Bind() != STB_LOCAL)]
  {
    if name != [] {
      assert strtab' == strtab + (name + [0]);
      StringAdded(strtab, name);
    }
    forall i | 0 <= i < |syms| ensures EntryOf(syms[i], strtab') == EntryOf(syms[i], strtab) {
      if name != [] { StringStays(strtab, name + [0], syms[i].name); }
    }
  }

  /** One link of the chain, at the latest symbol i below n of the name's bucket. */
  lemma FindStep(hash: seq<int>, es: seq<Entry>, n: nat, nb: nat, i: nat, name: Name)
    requires IndexedTo(hash, es, |es|, nb) && n <= |es| && i > 0 && i == LastIn(es, n, nb, ElfHash(name) % nb)
    ensures es[i].name == name ==> Latest(es, n, name) == i
    ensures es[i].name != name ==> Latest(es, n, name) == Latest(es, i, name)
    ensures hash[2 + nb + i] == LastIn(es, i, nb, ElfHash(name) % nb)
    ensures hash[2 + nb + i] == 0 ==> Latest(es, i, name) == 0
  {
    Skip(es, n, nb, name);
    Skip(es, i, nb, name);
    LastInBucket(es, n, nb, ElfHash(name) % nb);
    assert ChainIs(hash, es, i, nb);
  }

  lemma {:induction false} LastInBucket(es: seq<Entry>, n: nat, nb: nat, h: nat)
    requires n <= |es| && nb > 0
    ensures LastIn(es, n, nb, h) > 0 ==> InBucket(es[LastIn(es, n, nb, h)], nb, h)
  {
    if n > 1 { LastInBucket(es, n - 1, nb, h); }
  }
}
