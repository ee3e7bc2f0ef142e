/** What elf_hash computes, compared with the hash function of chapter 5 of the System V gABI. */
module NameHash {
  import opened Bits
  import opened SymbolHash

  const W32: nat := 0x1_0000_0000
  const W28: nat := 0x1000_0000

  // ----- the hash of the standard

  /** The top four bits of a 32-bit word go, and are exclusive-ored into bits 4 to 7. */
  function Fold(m: nat): nat {
    Xor(m % W28, 16 * (m / W28))
  }

  /** The hash of a name, on words of 32 bits. */
  function StandardHash(name: Name): nat {
    if name == [] then 0
    else StandardStep(StandardHash(name[..|name| - 1]), name[|name| - 1])
  }

  function StandardStep(h: nat, c: Byte): nat {
    Fold((16 * h + c) % W32)
  }

  /** A number is given by its bits; exclusive or is their difference. */
  lemma {:induction false} XorBit(x: nat, y: nat, i: nat)
    ensures Shr(Xor(x, y), i) % 2 == if Shr(x, i) % 2 == Shr(y, i) % 2 then 0 else 1
    decreases i
  {
    XorParts(x, y);
    if i > 0 { XorBit(x / 2, y / 2, i - 1); }
  }

  lemma XorParts(x: nat, y: nat)
    ensures Xor(x, y) / 2 == Xor(x / 2, y / 2) && Xor(x, y) % 2 == if x % 2 == y % 2 then 0 else 1
  {
    XorUnfold(x, y);
  }

  lemma XorUnfold(x: nat, y: nat)
    ensures Xor(x, y) == 2 * Xor(x / 2, y / 2) + (if x % 2 != y % 2 then 1 else 0)
  {
  }

  /** Exclusive or with a number below 2^k changes the low k bits only. */
  lemma {:induction false} XorLow(x: nat, s: nat, k: nat)
    requires s < Pow2(k)
    ensures Xor(x % Pow2(k), s) < Pow2(k) && Xor(x, s) + x % Pow2(k) == x + Xor(x % Pow2(k), s)
    decreases k
  {
    XorUnfold(x, s);
    if k > 0 {
      var p := Pow2(k - 1);
      XorLow(x / 2, s / 2, k - 1);
      ModDouble(x, p);
      var a := x % (2 * p);
      assert a / 2 == (x / 2) % p && a % 2 == x % 2;
      XorUnfold(a, s);
    }
  }

  lemma XorByte(x: nat, s: nat)
    requires s < 256
    ensures Xor(x % 256, s) < 256 && Xor(x, s) + x % 256 == x + Xor(x % 256, s)
  {
    assert Pow2(8) == 256;
    XorLow(x, s, 8);
  }

  /** The hash has 28 bits. */
  lemma FoldBelow(m: nat)
    requires m < W32
    ensures Fold(m) < W28
  {
    XorByte(m % W28, 16 * (m / W28));
  }

  // ----- one step of elf_hash

  lemma {:induction false} AndNotOwn(x: nat, w: nat)
    ensures AndNot(x, x % Pow2(w)) + x % Pow2(w) == x
    decreases w
  {
    if w == 0 {
      AndNotZero(x);
    } else {
      var p := Pow2(w - 1);
      ModDouble(x, p);
      var a := x % (2 * p);
      assert a / 2 == (x / 2) % p && a % 2 == x % 2;
      AndNotUnfold(x, a);
      AndNotOwn(x / 2, w - 1);
    }
  }

  /** Clearing a field takes away its value. */
  lemma {:induction false} AndNotField(x: nat, l: nat, w: nat)
    ensures AndNot(x, Shl(Field(x, l, w), l)) + Shl(Field(x, l, w), l) == x
    decreases l
  {
    if l == 0 {
      AndNotOwn(x, w);
    } else {
      var f := Shl(Field(x / 2, l - 1, w), l - 1);
      assert (2 * f) / 2 == f && (2 * f) % 2 == 0;
      AndNotUnfold(x, 2 * f);
      AndNotField(x / 2, l - 1, w);
    }
  }

  lemma Powers()
    ensures Pow2(4) == 16 && Pow2(24) == 0x100_0000 && Pow2(28) == W28 && Pow2(64) == W32 * W32
  {
    assert Pow2(8) == 256;
    assert Pow2(16) == 0x1_0000;
    assert Pow2(24) == 0x100_0000;
    assert Pow2(28) == W28;
    assert Pow2(32) == W32;
    assert Pow2(40) == 0x100 * W32;
    assert Pow2(48) == 0x1_0000 * W32;
    assert Pow2(56) == 0x100_0000 * W32;
  }

  /** The top nibble, as the source masks it. */
  lemma TopNibble(x: nat)
    ensures var t := (x / W28) % 16;
      And(x, 0xf0000000) == t * W28 && Shr(t * W28, 24) == 16 * t && Shl(Field(x, 28, 4), 28) == t * W28
  {
    Powers();
    var t := (x / W28) % 16;
    ShrDiv(x, 28);
    ShlMul(15, 28);
    ShlMul(t, 28);
    AndMask(x, 28, 4);
    ShrDiv(t * W28, 24);
  }

  /** What one turn of the loop makes of the shifted hash h1. */
  lemma TurnIs(h1: nat)
    ensures HashFold(h1) == Fold(h1 % W32) + W32 * (h1 / W32)
  {
    var H, t, b, a := Parts(h1);
    var c := Xor(a, 16 * t);
    XorByte(h1, 16 * t);
    XorByte(256 * b + a, 16 * t);
    PartsOf(H, t, b, a);
    PartsOf(H, t, b, c);
    TurnFrom(h1, t, W32 * H + W28 * t + 256 * b + c);
    FoldIs(h1 % W32, t, 256 * b + a);
  }

  lemma FoldIs(m: nat, t: nat, l: nat)
    requires m / W28 == t && m % W28 == l
    ensures Fold(m) == Xor(l, 16 * t)
  {
  }

  lemma TurnFrom(h1: nat, t: nat, x: nat)
    requires (h1 / W28) % 16 == t && x == Xor(h1, 16 * t) && (x / W28) % 16 == t
    ensures HashFold(h1) + W28 * t == x
  {
    TopNibble(h1);
    TopNibble(x);
    AndNotField(x, 28, 4);
    XorNothing(h1, t);
  }

  lemma Parts(h1: nat) returns (H: nat, t: nat, b: nat, a: nat)
    ensures t < 16 && b < 0x10_0000 && a < 256 && h1 == W32 * H + W28 * t + 256 * b + a
    ensures t == (h1 / W28) % 16
  {
    H, t, b, a := h1 / W32, (h1 / W28) % 16, (h1 / 256) % 0x10_0000, h1 % 256;
  }

  lemma PartsOf(H: nat, t: nat, b: nat, a: nat)
    requires t < 16 && b < 0x10_0000 && a < 256
    ensures var h := W32 * H + W28 * t + 256 * b + a;
      && h % 256 == a && (h / W28) % 16 == t && h / W32 == H && h % W32 == W28 * t + 256 * b + a
      && (h % W32) / W28 == t && (h % W32) % W28 == 256 * b + a && (256 * b + a) % 256 == a
  {
  }

  lemma XorNothing(h1: nat, t: nat)
    ensures t == 0 ==> Xor(h1, 16 * t) == h1
  {
  }

  // ----- elf_hash and the standard

  /** What elf_hash has above bit 31, where unsigned long has 64 bits. */
  function Above(name: Name): (r: nat)
    ensures r < W32
  {
    if name == [] then 0
    else AboveStep(Above(name[..|name| - 1]), StandardHash(name[..|name| - 1]), name[|name| - 1])
  }

  function AboveStep(high: nat, low: nat, c: Byte): (r: nat)
    ensures r < W32
  {
    (16 * high + Carry(low, c)) % W32
  }

  /** 1 when the hash after one more character does not fit into 32 bits. */
  function Carry(low: nat, c: Byte): nat {
    if 16 * low + c >= W32 then 1 else 0
  }

  lemma {:induction false} StandardBelow(name: Name)
    ensures StandardHash(name) < W28
  {
    if name != [] { FoldBelow((16 * StandardHash(name[..|name| - 1]) + name[|name| - 1]) % W32); }
  }

  lemma {:induction false} HashLast(h: nat, name: Name)
    requires name != []
    ensures HashFrom(h, name) == HashStep(HashFrom(h, name[..|name| - 1]), name[|name| - 1])
    decreases |name|
  {
    var a, rest := name[..|name| - 1], name[1..];
    if |name| > 1 {
      assert rest[..|rest| - 1] == a[1..] && a[0] == name[0] && rest[|rest| - 1] == name[|name| - 1];
      HashLast(HashStep(h, name[0]), rest);
    }
  }

  /** The low half of elf_hash is the standard's hash, the high half what was carried over. */
  lemma {:induction false} HashParts(name: Name)
    ensures ElfHash(name) == StandardHash(name) + W32 * Above(name) && StandardHash(name) < W28
  {
    StandardBelow(name);
    if name != [] {
      var a, c := name[..|name| - 1], name[|name| - 1];
      HashParts(a);
      HashLast(0, name);
      OneTurn(StandardHash(a), Above(a), c);
    }
  }

  lemma OneTurn(low: nat, high: nat, c: Byte)
    requires low < W28 && high < W32
    ensures HashStep(low + W32 * high, c) == StandardStep(low, c) + W32 * AboveStep(high, low, c)
  {
    Powers();
    var h := low + W32 * high;
    ShlMul(h, 4);
    var h1 := (16 * h + c) % (W32 * W32);
    assert HashStep(h, c) == HashFold(h1);
    TurnIs(h1);
    ShiftedParts(low, high, c, h1);
  }

  /** The shifted hash, in two halves. */
  lemma ShiftedParts(low: nat, high: nat, c: Byte, h1: nat)
    requires low < W28 && high < W32 && h1 == (16 * (low + W32 * high) + c) % (W32 * W32)
    ensures h1 % W32 == (16 * low + c) % W32 && h1 / W32 == AboveStep(high, low, c)
  {
    var k := Carry(low, c);
    var m := 16 * low + c - W32 * k;
    DivUnique(16 * low + c, W32, k, m);
    var p, o := (16 * high + k) % W32, (16 * high + k) / W32;
    assert 16 * high + k == W32 * o + p;
    DivUnique(16 * (low + W32 * high) + c, W32 * W32, o, W32 * p + m);
    DivUnique(h1, W32, p, m);
  }

  /** elf_hash is the standard's hash exactly when none of the last eight characters carries.
      Earlier ones do not matter: what they carried has left the 64 bits. */
  lemma HashIsStandard(name: Name)
    ensures ElfHash(name) % W32 == StandardHash(name) < W28
    ensures ElfHash(name) == StandardHash(name) <==> NoCarry(name, 8)
  {
    HashParts(name);
    PowEight();
    AboveClear(name, 8);
    TwoHalves(ElfHash(name), StandardHash(name), Above(name));
  }

  lemma TwoHalves(x: nat, low: nat, high: nat)
    requires x == low + W32 * high && low < W28 && high < W32
    ensures x % W32 == low && (x == low <==> high % W32 == 0)
  {
  }

  /** None of the last j characters carries. */
  ghost predicate NoCarry(name: Name, j: nat) {
    forall k :: 0 <= k < |name| && k >= |name| - j ==> Carry(StandardHash(name[..k]), name[k]) == 0
  }

  function Pow16(n: nat): (r: nat)
    ensures r > 0
  {
    if n == 0 then 1 else 16 * Pow16(n - 1)
  }

  lemma {:induction false} PowDivides(j: nat, n: nat)
    requires j <= n
    ensures Pow16(n) % Pow16(j) == 0
    decreases n
  {
    if j < n {
      PowDivides(j, n - 1);
      var p := Pow16(j);
      var q := Pow16(n - 1) / p;
      assert Pow16(n) == p * (16 * q);
      DivUnique(Pow16(n), p, 16 * q, 0);
    } else {
      DivUnique(Pow16(n), Pow16(j), 1, 0);
    }
  }

  lemma {:induction false} AboveClear(name: Name, j: nat)
    requires j <= 8
    ensures Above(name) % Pow16(j) == 0 <==> NoCarry(name, j)
    decreases |name|
  {
    if name == [] || j == 0 {
      AboveClearNone(name, j);
    } else {
      var a, c := name[..|name| - 1], name[|name| - 1];
      AboveClear(a, j - 1);
      NoCarryLast(name, j);
      var high, low, p := Above(a), StandardHash(a), Pow16(j);
      StepClear(high, low, c, j);
      assert Above(name) == AboveStep(high, low, c);
    }
  }

  lemma AboveClearNone(name: Name, j: nat)
    requires name == [] || j == 0
    ensures Above(name) % Pow16(j) == 0 && NoCarry(name, j)
  {
    var x, p := Above(name), Pow16(j);
    if name == [] { DivUnique(x, p, 0, 0); } else { DivUnique(x, p, x, 0); }
  }

  lemma NoCarryLast(name: Name, j: nat)
    requires name != [] && j > 0
    ensures var a, n := name[..|name| - 1], |name| - 1;
      NoCarry(name, j) <==> NoCarry(a, j - 1) && Carry(StandardHash(a), name[n]) == 0
  {
    var a, n := name[..|name| - 1], |name| - 1;
    assert forall k :: 0 <= k < n ==> a[..k] == name[..k] && a[k] == name[k];
    if NoCarry(name, j) {
      forall k | 0 <= k < n && k >= n - (j - 1) ensures Carry(StandardHash(a[..k]), a[k]) == 0 {
        assert a[..k] == name[..k];
      }
    }
    if NoCarry(a, j - 1) && Carry(StandardHash(a), name[n]) == 0 {
      forall k | 0 <= k <= n && k >= n + 1 - j ensures Carry(StandardHash(name[..k]), name[k]) == 0 {
        if k < n { assert a[..k] == name[..k]; }
      }
    }
  }

  lemma StepClear(high: nat, low: nat, c: Byte, j: nat)
    requires 0 < j <= 8
    ensures AboveStep(high, low, c) % Pow16(j) == 0 <==> high % Pow16(j - 1) == 0 && Carry(low, c) == 0
  {
    PowEight();
    PowDivides(j, 8);
    NibbleClear(16 * high + Carry(low, c), W32, Pow16(j));
    LastNibble(high, Carry(low, c), Pow16(j - 1));
  }

  lemma PowEight()
    ensures Pow16(8) == W32
  {
    assert Pow16(4) == 0x1_0000;
  }

  lemma NibbleClear(x: nat, w: nat, p: nat)
    requires p > 0 && w > 0 && w % p == 0
    ensures (x % w) % p == x % p
  {
    var q, r := w / p, x % w;
    var d, u := r / p, r % p;
    assert x == w * (x / w) + r && w == p * q && r == p * d + u;
    assert (p * q) * (x / w) == p * (q * (x / w));
    assert x == p * (q * (x / w) + d) + u;
    DivUnique(x, p, q * (x / w) + d, u);
  }

  lemma LastNibble(x: nat, c: nat, p: nat)
    requires p > 0 && c < 2
    ensures (16 * x + c) % (16 * p) == 0 <==> x % p == 0 && c == 0
  {
    var q, r := x / p, x % p;
    assert x == p * q + r;
    assert 16 * x + c == (16 * p) * q + (16 * r + c);
    DivUnique(16 * x + c, 16 * p, q, 16 * r + c);
  }

  // ----- buckets

  /** With a number of buckets that is a power of two, or without a carry, a symbol is in the
      bucket that the standard says. */
  lemma BucketIsStandard(name: Name, nb: nat)
    requires nb > 0
    ensures (W32 % nb == 0 || NoCarry(name, 8)) ==> ElfHash(name) % nb == StandardHash(name) % nb
  {
    HashParts(name);
    HashIsStandard(name);
    if W32 % nb == 0 { SameRemainder(ElfHash(name), StandardHash(name), Above(name), nb); }
  }

  lemma SameRemainder(x: nat, low: nat, high: nat, nb: nat)
    requires nb > 0 && W32 % nb == 0 && x == low + W32 * high
    ensures x % nb == low % nb
  {
    var q := W32 / nb;
    assert W32 == nb * q && (nb * q) * high == nb * (q * high);
    assert low == nb * (low / nb) + low % nb;
    assert x == nb * (q * high + low / nb) + low % nb;
    DivUnique(x, nb, q * high + low / nb, low % nb);
  }

  /** How a loader looks a name up: from the bucket along the chain to the first symbol of that name. */
  ghost function LookUp(hash: seq<int>, es: seq<Entry>, i: int, name: Name): int
    decreases i
  {
    if i <= 0 || i >= |es| || |hash| < 2 || hash[0] < 0 || 2 + hash[0] + i >= |hash| then 0
    else if es[i].name == name then i
    else if hash[2 + hash[0] + i] < i then LookUp(hash, es, hash[2 + hash[0] + i], name) else 0
  }

  lemma {:induction false} ChainLooksUp(hash: seq<int>, es: seq<Entry>, n: nat, name: Name)
    requires Indexed(hash, es) && n <= |es|
    ensures LookUp(hash, es, LastIn(es, n, hash[0], ElfHash(name) % hash[0]), name) == Latest(es, n, name)
    decreases n
  {
    var nb := hash[0];
    var i := LastIn(es, n, nb, ElfHash(name) % nb);
    Skip(es, n, nb, name);
    if i > 0 {
      FindStep(hash, es, n, nb, i, name);
      ChainLooksUp(hash, es, i, name);
    }
  }

  /** A loader that hashes as the standard says finds what find_elf_sym finds. */
  lemma LoaderFinds(hash: seq<int>, es: seq<Entry>, name: Name)
    requires Indexed(hash, es) && (W32 % hash[0] == 0 || NoCarry(name, 8))
    ensures LookUp(hash, es, hash[2 + StandardHash(name) % hash[0]], name) == Latest(es, |es|, name)
  {
    var nb := hash[0];
    BucketIsStandard(name, nb);
    assert BucketIs(hash, es, |es|, nb, ElfHash(name) % nb);
    ChainLooksUp(hash, es, |es|, name);
  }

  // ----- a name that carries

  const CARRYING: Name := [0xff, 0x0f, 0x0f, 0x0f, 0x0f, 0x0f, 0x12]

  /** Characters that only fill the low 28 bits. */
  lemma Filling(name: Name, h: nat, c: Byte)
    requires StandardHash(name) == h && Above(name) == 0 && 16 * h + c < W28 && c != 0
    ensures StandardHash(name + [c]) == 16 * h + c && Above(name + [c]) == 0
  {
    LastCharacter(name, c);
    SmallStep(h, c);
  }

  lemma SmallStep(h: nat, c: Byte)
    requires 16 * h + c < W28
    ensures StandardStep(h, c) == 16 * h + c && AboveStep(0, h, c) == 0
  {
    var m := 16 * h + c;
    DivUnique(m, W32, 0, m);
    FoldSmall(m);
    DivUnique(0, W32, 0, 0);
  }

  lemma CarryStep(h: nat, c: Byte)
    requires 16 * h + c == W32 + 2
    ensures StandardStep(h, c) == 2 && AboveStep(0, h, c) == 1
  {
    FoldSmall(2);
  }

  lemma LastCharacter(name: Name, c: Byte)
    requires c != 0
    ensures var all: Name := name + [c];
      && StandardHash(all) == StandardStep(StandardHash(name), c)
      && Above(all) == AboveStep(Above(name), StandardHash(name), c)
  {
    var all: Name := name + [c];
    assert all[..|all| - 1] == name && all[|all| - 1] == c;
  }

  lemma FoldSmall(m: nat)
    requires m < W28
    ensures Fold(m) == m
  {
    DivUnique(m, W28, 0, m);
  }

  lemma Carrying(name: Name, h: nat, c: Byte)
    requires StandardHash(name) == h && Above(name) == 0 && 16 * h + c == W32 + 2 && c != 0
    ensures StandardHash(name + [c]) == 2 && Above(name + [c]) == 1
  {
    LastCharacter(name, c);
    CarryStep(h, c);
  }

  /** The seventh character carries: elf_hash gives 2^32 + 2, the standard 2. */
  lemma CarryHappens()
    ensures StandardHash(CARRYING) == 2 && ElfHash(CARRYING) == 0x1_0000_0002
  {
    Filling([], 0, 0xff);
    var a: Name := [] + [0xff];
    Filling(a, 0xff, 0x0f);
    var b: Name := a + [0x0f];
    Filling(b, 0xfff, 0x0f);
    var c: Name := b + [0x0f];
    Filling(c, 0xffff, 0x0f);
    var d: Name := c + [0x0f];
    Filling(d, 0xfffff, 0x0f);
    var e: Name := d + [0x0f];
    Filling(e, 0xffffff, 0x0f);
    var f: Name := e + [0x0f];
    Carrying(f, 0xfffffff, 0x12);
    assert CARRYING == f + [0x12];
    HashParts(CARRYING);
  }
}
