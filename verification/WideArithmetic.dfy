/** 128-bit helpers and the division of a power of two by a 64-bit divisor.
    A 128-bit value is an array of two 64-bit words, the low word first. */
module WideArithmetic {
  import opened Bits

  const W32: nat := 0x1_0000_0000
  const W64: nat := 0x1_0000_0000_0000_0000

  type U64 = x: nat | x < 0x1_0000_0000_0000_0000

  /** The low 64 bits, which is what 64-bit arithmetic keeps. */
  function Wrap(x: int): U64 {
    x % W64
  }

  function Wide(low: U64, high: U64): nat {
    W64 * high + low
  }

  // ----- multiplication

  lemma Halves(x: U64)
    ensures And(x, 0xffffffff) == x % W32 && Shr(x, 32) == x / W32
    ensures x / W32 < W32 && x % W32 < W32
  {
    assert Pow2(8) == 256 && Pow2(16) == 0x10000 && Pow2(24) == 0x1000000 && Pow2(32) == W32;
    AndMask(x, 0, 32);
    ShrDiv(x, 32);
  }

  lemma HalfProduct(a: nat, b: nat, w: nat)
    requires a < w && b < w
    ensures a * b <= (w - 1) * (w - 1) == w * w - 2 * w + 1
  {
    MulLe(a, b, w - 1);
    MulLe(w - 1, a, w - 1);
    assert (w - 1) * (w - 1) == w * (w - 1) - (w - 1);
  }

  /** Schoolbook multiplication in base w, with the middle column carried. */
  lemma Columns(w: nat, e: nat, f: nat, c: nat, d: nat, fd: nat, fc: nat, ed: nat, ec: nat, tmp: nat)
    requires w > 0 && fd == f * d && fc == f * c && ed == e * d && ec == e * c
    requires tmp == fd / w + fc % w + ed % w
    ensures (w * w) * (tmp / w + fc / w + ed / w + ec) + (w * (tmp % w) + fd % w) == (w * e + f) * (w * c + d)
  {
    var t1, c1, d1 := tmp / w, fc / w, ed / w;
    DivMod(fd, w);
    DivMod(fc, w);
    DivMod(ed, w);
    DivMod(tmp, w);
    calc {
      (w * w) * (t1 + c1 + d1 + ec) + (w * (tmp % w) + fd % w);
      { Distribute(w, t1, c1, d1, ec, tmp % w); }
      w * (w * t1 + tmp % w) + w * (w * c1) + w * (w * d1) + (w * w) * ec + fd % w;
      w * (fd / w + fc % w + ed % w) + w * (w * c1) + w * (w * d1) + (w * w) * ec + fd % w;
      { Distribute3(w, fd / w, fc % w, ed % w); Distribute3(w, w * c1, fc % w, 0); Distribute3(w, w * d1, ed % w, 0); }
      fd + w * fc + w * ed + (w * w) * ec;
      { Expand(w, e, f, c, d); }
      (w * e + f) * (w * c + d);
    }
  }

  lemma ColumnWords(x: nat, y: nat, w: nat, ww: nat, e: nat, f: nat, c: nat, d: nat,
                    fd: nat, fc: nat, ed: nat, ec: nat, tmp: nat, high: nat, low: nat)
    requires w > 0 && ww == w * w && x == w * e + f && y == w * c + d
    requires fd == f * d && fc == f * c && ed == e * d && ec == e * c
    requires tmp == fd / w + fc % w + ed % w
    requires high == tmp / w + fc / w + ed / w + ec && low == w * (tmp % w) + fd % w
    ensures ww * high + low == x * y
  {
    Columns(w, e, f, c, d, fd, fc, ed, ec, tmp);
  }

  lemma Distribute(w: int, a: int, b: int, c: int, d: int, m: int)
    ensures (w * w) * (a + b + c + d) + w * m == w * (w * a + m) + w * (w * b) + w * (w * c) + (w * w) * d
  {
    assert (w * w) * (a + b + c + d) == (w * w) * a + (w * w) * b + (w * w) * c + (w * w) * d;
    assert (w * w) * a == w * (w * a) && (w * w) * b == w * (w * b) && (w * w) * c == w * (w * c);
    assert w * (w * a + m) == w * (w * a) + w * m;
  }

  lemma Distribute3(w: int, a: int, b: int, c: int)
    ensures w * (a + b + c) == w * a + w * b + w * c
  {
  }

  lemma Expand(w: int, e: int, f: int, c: int, d: int)
    ensures (w * e + f) * (w * c + d) == f * d + w * (f * c) + w * (e * d) + (w * w) * (e * c)
  {
    calc {
      (w * e + f) * (w * c + d);
      (w * e) * (w * c) + (w * e) * d + f * (w * c) + f * d;
      { assert (w * e) * (w * c) == (w * w) * (e * c) by {
          assert (w * e) * (w * c) == w * (e * (w * c));
          assert e * (w * c) == w * (e * c);
        }
        assert (w * e) * d == w * (e * d);
        assert f * (w * c) == w * (f * c); }
      f * d + w * (f * c) + w * (e * d) + (w * w) * (e * c);
    }
  }

  /** mult64to128 is exact. */
  method Mult64To128(res: array<U64>, x: U64, y: U64)
    requires res.Length == 2
    modifies res
    ensures Wide(res[0], res[1]) == x * y
  {
    var f, e := And(x, 0xffffffff), Shr(x, 32);
    var d, c := And(y, 0xffffffff), Shr(y, 32);
    HalfProducts(x, y, f, e, d, c);
    var fd := Wrap(f * d);
    var fc := Wrap(f * c);
    var ed := Wrap(e * d);
    var ec := Wrap(e * c);
    var tmp := Wrap(Shr(fd, 32) + And(fc, 0xffffffff) + And(ed, 0xffffffff));
    var high := Shr(tmp, 32) + Shr(fc, 32) + Shr(ed, 32) + ec;
    var low := Wrap(Shl(tmp, 32)) + And(fd, 0xffffffff);
    SumColumns(x, y, f, e, d, c, fd, fc, ed, ec, tmp, high, low);
    res[1] := Wrap(high);
    res[0] := Wrap(low);
  }

  lemma HalfProducts(x: U64, y: U64, f: nat, e: nat, d: nat, c: nat)
    requires f == And(x, 0xffffffff) && e == Shr(x, 32) && d == And(y, 0xffffffff) && c == Shr(y, 32)
    ensures Wrap(f * d) == f * d && Wrap(f * c) == f * c && Wrap(e * d) == e * d && Wrap(e * c) == e * c
    ensures x == W32 * e + f && y == W32 * c + d
  {
    Halves(x);
    Halves(y);
    SmallProduct(f, d);
    SmallProduct(f, c);
    SmallProduct(e, d);
    SmallProduct(e, c);
  }

  lemma SmallProduct(a: nat, b: nat)
    requires a < W32 && b < W32
    ensures Wrap(a * b) == a * b
  {
    HalfProduct(a, b, W32);
    Small(a * b);
  }

  lemma Small(x: nat)
    requires x < W64
    ensures Wrap(x) == x
  {
  }

  lemma SumColumns(x: U64, y: U64, f: nat, e: nat, d: nat, c: nat, fd: U64, fc: U64, ed: U64, ec: U64, tmp: U64,
      high: nat, low: nat)
    requires x == W32 * e + f && y == W32 * c + d
    requires fd == f * d && fc == f * c && ed == e * d && ec == e * c
    requires tmp == Wrap(Shr(fd, 32) + And(fc, 0xffffffff) + And(ed, 0xffffffff))
    requires high == Shr(tmp, 32) + Shr(fc, 32) + Shr(ed, 32) + ec && low == Wrap(Shl(tmp, 32)) + And(fd, 0xffffffff)
    ensures W64 * high + low == x * y && Wrap(high) == high && Wrap(low) == low
  {
    ColumnValues(fd, fc, ed, ec, tmp, high, low);
    ColumnWords(x, y, W32, W64, e, f, c, d, fd, fc, ed, ec, tmp, high, low);
    ProductWords(x, y, high, low);
    Small(high);
    Small(low);
  }

  lemma ColumnValues(fd: U64, fc: U64, ed: U64, ec: U64, tmp: U64, high: nat, low: nat)
    requires tmp == Wrap(Shr(fd, 32) + And(fc, 0xffffffff) + And(ed, 0xffffffff))
    requires high == Shr(tmp, 32) + Shr(fc, 32) + Shr(ed, 32) + ec && low == Wrap(Shl(tmp, 32)) + And(fd, 0xffffffff)
    ensures tmp == fd / W32 + fc % W32 + ed % W32
    ensures high == tmp / W32 + fc / W32 + ed / W32 + ec && low == W32 * (tmp % W32) + fd % W32 && low < W64
  {
    Halves(fd);
    Halves(fc);
    Halves(ed);
    SumSmall(fd / W32, fc % W32, ed % W32);
    Halves(tmp);
    LowShift(tmp);
    TwoDigits(tmp % W32, fd % W32);
  }

  lemma SumSmall(a: nat, b: nat, c: nat)
    requires a < W32 && b < W32 && c < W32
    ensures Wrap(a + b + c) == a + b + c
  {
  }

  lemma TwoDigits(a: nat, b: nat)
    requires a < W32 && b < W32
    ensures W32 * a + b < W64
  {
  }

  lemma LowShift(tmp: U64)
    ensures Wrap(Shl(tmp, 32)) == W32 * (tmp % W32)
  {
    assert Pow2(8) == 256 && Pow2(16) == 0x10000 && Pow2(24) == 0x1000000 && Pow2(32) == W32;
    ShlMul(tmp, 32);
    DivUnique(tmp * W32, W64, tmp / W32, W32 * (tmp % W32));
  }

  lemma ProductWords(x: U64, y: U64, high: nat, low: nat)
    requires W64 * high + low == x * y && low < W64
    ensures high < W64
  {
    HalfProduct(x, y, W64);
    if high >= W64 { MulLe(W64, W64, high); }
  }

  // ----- subtraction and comparison

  method UnsignedSubtract128(a: array<U64>, b: array<U64>)
    requires a.Length == 2 && b.Length == 2
    modifies a
    ensures Wide(a[0], a[1]) == (old(Wide(a[0], a[1])) - old(Wide(b[0], b[1]))) % (W64 * W64)
  {
    ghost var a0, a1, b0, b1 := a[0], a[1], b[0], b[1];
    var borrow := a[0] < b[0];
    a[0] := Wrap((a[0] as int) - b[0]);
    a[1] := Wrap((a[1] as int) - b[1]);
    if borrow { a[1] := Wrap((a[1] as int) - 1); }
    if a != b { SubtractWords(a0, a1, b0, b1); }
  }

  lemma SubtractWords(a0: int, a1: int, b0: int, b1: int)
    requires 0 <= a0 < W64 && 0 <= a1 < W64 && 0 <= b0 < W64 && 0 <= b1 < W64
    ensures Wide(Wrap(a0 - b0),
        Wrap(if a0 < b0 then Wrap(a1 - b1) - 1 else a1 - b1)) == (Wide(a0, a1) - Wide(b0, b1)) % (W64 * W64)
  {
    var high := if a0 < b0 then a1 - b1 - 1 else a1 - b1;
    var low := if a0 < b0 then a0 - b0 + W64 else a0 - b0;
    var q := if high < 0 then -1 else 0;
    WrapUnique(a0 - b0, if a0 < b0 then -1 else 0, low);
    WrapUnique(a1 - b1, if a1 < b1 then -1 else 0, if a1 < b1 then a1 - b1 + W64 else a1 - b1);
    WrapUnique(high, q, high - W64 * q);
    if a0 < b0 { WrapUnique((Wrap(a1 - b1) as int) - 1, q - (if a1 < b1 then -1 else 0), high - W64 * q); }
    DivUnique(Wide(a0, a1) - Wide(b0, b1), W64 * W64, q, W64 * (high - W64 * q) + low);
  }

  lemma WrapUnique(x: int, q: int, r: int)
    requires x == W64 * q + r && 0 <= r < W64
    ensures Wrap(x) == r
  {
    DivUnique(x, W64, q, r);
  }

  function UnsignedCompare128(a: seq<U64>, b: seq<U64>): (r: int)
    requires |a| == 2 && |b| == 2
    ensures r < 0 <==> Wide(a[0], a[1]) < Wide(b[0], b[1])
    ensures r > 0 <==> Wide(a[0], a[1]) > Wide(b[0], b[1])
  {
    if a[1] != b[1] then if a[1] < b[1] then -1 else 1
    else if a[0] != b[0] then if a[0] < b[0] then -1 else 1
    else 0
  }

  // ----- dividing a power of two

  lemma {:induction false} PowSum(a: nat, b: nat)
    ensures Pow2(a + b) == Pow2(a) * Pow2(b)
  {
    if a > 0 {
      PowSum(a - 1, b);
      assert 2 * (Pow2(a - 1) * Pow2(b)) == (2 * Pow2(a - 1)) * Pow2(b);
    }
  }

  lemma {:induction false} PowAtMost(k: nat, n: nat)
    requires k <= n
    ensures Pow2(k) <= Pow2(n)
  {
    if k < n { PowAtMost(k, n - 1); }
  }

  lemma PowConstants()
    ensures Pow2(63) == 0x8000_0000_0000_0000 && Pow2(64) == W64
  {
    assert Pow2(8) == 256 && Pow2(16) == 0x10000 && Pow2(24) == 0x1000000 && Pow2(32) == W32;
    PowSum(32, 32);
  }

  lemma SmallPower(k: nat)
    requires k < 64
    ensures Wrap(Shl(1, k)) == Pow2(k) <= 0x8000_0000_0000_0000
  {
    PowConstants();
    PowAtMost(k, 63);
    ShlMul(1, k);
  }

  /** The quotient q of P by D: what D * t <= P says about t. */
  lemma QuotientIs(P: nat, D: nat, t: nat)
    requires D > 0
    ensures P < D * t <==> P / D < t
  {
    var q := P / D;
    assert D * q <= P < D * q + D;
    if t <= q { MulLe(D, t, q); } else { MulLe(D, q + 1, t); }
  }

  /** A divisor below 2^k, with P = 2^(k + 64): the quotient does not fit. */
  lemma TooBig(p: nat, P: nat, D: nat)
    requires p > 0 && P == p * W64 && 0 < D <= p
    ensures P / D >= W64
  {
    assert D * W64 <= p * W64 by { MulLe(W64, D, p); }
    QuotientIs(P, D, W64);
  }

  lemma FitsIn64(p: nat, P: nat, D: nat)
    requires 0 < p <= 0x8000_0000_0000_0000 && P == p * W64 && D > p
    ensures P / D < W64 - 1
  {
    MulLe(W64 - 1, p + 1, D);
    assert (W64 - 1) * (p + 1) == W64 * p - p + W64 - 1;
    QuotientIs(P, D, W64 - 1);
  }

  /** The first guesses, from the top bits y of the divisor. */
  lemma UpperGuess(p: nat, P: nat, D: nat, h: nat, y: nat)
    requires p > 0 && P == (2 * p) * h && y == D / (2 * p) && y > 0
    ensures P / D <= h / y
  {
    var m := h / y + 1;
    assert D >= (2 * p) * y;
    assert y * m > h by { QuotientIs(h, y, m); }
    MulLe(2 * p, h + 1, y * m);
    MulLe(m, (2 * p) * y, D);
    assert (2 * p) * (y * m) == ((2 * p) * y) * m;
    assert P < D * m;
    QuotientIs(P, D, m);
  }

  lemma LowerGuess(p: nat, P: nat, D: nat, h: nat, y: nat)
    requires p > 0 && D > 0 && P == (2 * p) * h && y == D / (2 * p)
    ensures h / (y + 1) <= P / D
  {
    var m := h / (y + 1);
    assert D <= (2 * p) * (y + 1);
    assert (y + 1) * m <= h by { QuotientIs(h, y + 1, m); }
    MulLe(2 * p, (y + 1) * m, h);
    MulLe(m, D, (2 * p) * (y + 1));
    assert (2 * p) * ((y + 1) * m) == ((2 * p) * (y + 1)) * m;
    QuotientIs(P, D, m);
  }

  lemma SmallQuotient(power: nat, divisor: nat)
    requires 0 < divisor && power < W64
    ensures power / divisor < W64 && power == (power / divisor) * divisor + power % divisor
  {
    QuotientIs(power, divisor, W64);
    MulLe(W64, 1, divisor);
  }

  /** The second half of power2Divide: search for the quotient between min and max. */
  method Search(divisor: U64, n: nat, ghost p: nat, ghost P: nat, min0: U64, max0: U64) returns (q: U64, r: U64)
    requires 64 <= n <= 127 && p == Pow2(n - 64) && P == p * W64 && divisor > p
    requires min0 <= P / divisor <= max0 && P / divisor < W64 - 1
    ensures P == q * divisor + r && r < divisor
  {
    var min: U64, max: U64 := min0, max0;
    ghost var Q := P / divisor;
    SmallPower(n - 64);
    var fullpower := new U64[2];
    fullpower[1] := Wrap(Shl(1, n - 64));
    fullpower[0] := 0;
    var mult := new U64[2];
    mult[0] := 0;
    mult[1] := 0;
    var tmpq: U64 := 0;
    while max > min + 1
      invariant min <= Q <= max
      invariant Wide(fullpower[0], fullpower[1]) == P
      invariant Wide(mult[0], mult[1]) == divisor * tmpq
      decreases max - min
    {
      tmpq := Middle(max, min);
      Mult64To128(mult, divisor, tmpq);
      QuotientIs(P, divisor, tmpq);
      if UnsignedCompare128(fullpower[..], mult[..]) < 0 {
        max := tmpq - 1;
      } else {
        min := tmpq;
      }
    }
    if tmpq != min { Mult64To128(mult, divisor, min); }
    QuotientIs(P, divisor, min);
    QuotientIs(P, divisor, Q + 1);
    UnsignedSubtract128(fullpower, mult);
    ghost var left := P - divisor * min;
    Remainder(P, divisor, min, Q, fullpower[0], fullpower[1]);
    if fullpower[1] != 0 || fullpower[0] >= divisor {
      q := min + 1;
      r := Wrap((fullpower[0] as int) - divisor);
    } else {
      q := min;
      r := fullpower[0];
    }
  }

  /** The average of two words, whose sum may wrap. */
  function Middle(max: U64, min: U64): (t: U64)
    requires max > min + 1
    ensures t == (max + min) / 2 && min < t < max
  {
    var tmpq := Wrap(max + min);
    if tmpq < min then tmpq / 2 + 0x8000000000000000 else tmpq / 2
  }

  lemma Remainder(P: nat, D: U64, min: nat, Q: nat, low: U64, high: U64)
    requires D > 0 && Q == P / D && (min == Q || min + 1 == Q)
    requires Wide(low, high) == (P - D * min) % (W64 * W64)
    ensures if high != 0 ||
        low >= D then Q == min + 1 && P == (min + 1) * D + Wrap((low as int) - D) && Wrap((low as int) - D) < D
      else Q == min && P == min * D + low && low < D
  {
    var rest := P - D * min;
    assert P == D * Q + P % D;
    assert D * (min + 1) == D * min + D;
    if min == Q {
      assert rest == P % D;
      WideSplit(low, high, rest);
    } else {
      assert rest == P % D + D;
      WideSplit(low, high, rest);
      WrapUnique((low as int) - D, -(high as int), P % D);
    }
  }

  lemma WideSplit(low: U64, high: U64, rest: nat)
    requires Wide(low, high) == rest % (W64 * W64) && rest < 2 * W64
    ensures rest == W64 * high + low
  {
  }

  /** power2Divide: 2^n divided by a 64-bit divisor.  The status is 2 for a zero
      divisor, 1 when the quotient does not fit, and otherwise 0. */
  method Power2Divide(n: nat, divisor: U64) returns (status: int, q: U64, r: U64)
    requires n <= 127
    ensures status == 2 <==> divisor == 0
    ensures status == 1 <==> divisor > 0 && Pow2(n) / divisor >= W64
    ensures status == 0 || status == 1 || status == 2
    ensures status == 0 ==> Pow2(n) == q * divisor + r && r < divisor
  {
    q, r := 0, 0;
    if divisor == 0 { return 2, q, r; }
    var power: U64 := 1;
    if n < 64 {
      SmallPower(n);
      power := Wrap(Shl(power, n));
      q := power / divisor;
      r := power % divisor;
      SmallQuotient(power, divisor);
      return 0, q, r;
    }
    ghost var p, P := Pow2(n - 64), Pow2(n);
    TopBits(n, divisor, p, P);
    var y: U64 := Shr(divisor, n - 64);
    if y == 0 {
      TooBig(p, P, divisor);
      return 1, q, r;
    }
    y := Shr(y, 1);
    power := Wrap(Shl(power, 63));
    var max: U64;
    if y == 0 {
      max := Wrap(0 - 1);
      if Wrap(Shl(1, n - 64)) == divisor {
        TooBig(p, P, divisor);
        return 1, q, r;
      }
    } else {
      max := Wrap(Quotient(power, y) + 1);
    }
    FirstGuess(p, P, divisor, power, y, max);
    var min := Quotient(power, y + 1);
    if min != 0 { min := min - 1; }
    q, r := Search(divisor, n, p, P, min, max);
    status := 0;
  }

  lemma TopBits(n: nat, D: U64, p: nat, P: nat)
    requires 64 <= n <= 127 && p == Pow2(n - 64) && P == Pow2(n)
    ensures P == p * W64 && Wrap(Shl(1, n - 64)) == p <= 0x8000_0000_0000_0000 &&
        Wrap(Shl(1, 63)) == 0x8000_0000_0000_0000
    ensures Shr(D, n - 64) == D / p <= D && Shr(Shr(D, n - 64), 1) == D / (2 * p) <= D
    ensures D / p == 0 ==> D < p
    ensures D / p > 0 ==> D >= p
    ensures D / (2 * p) > 0 ==> D > p
  {
    PowConstants();
    PowSum(n - 64, 64);
    SmallPower(n - 64);
    SmallPower(63);
    ShrDiv(D, n - 64);
    DivDiv(D, p, 2);
    QuotientIs(D, p, 1);
    QuotientIs(D, 2 * p, 1);
    QuotientBelow(D, p);
    QuotientBelow(D, 2 * p);
  }

  lemma QuotientBelow(x: nat, d: nat)
    requires d > 0
    ensures x / d <= x
  {
    MulLe(x + 1, 1, d);
    QuotientIs(x, d, x + 1);
  }

  /** Division of words. */
  function Quotient(x: U64, d: nat): (q: U64)
    requires d > 0
    ensures q == x / d
  {
    QuotientBelow(x, d);
    x / d
  }

  lemma FirstGuess(p: nat, P: nat, D: U64, power: U64, y: U64, max: U64)
    requires 0 < p <= power && power == 0x8000_0000_0000_0000 && P == p * W64 && D > p
    requires y == D / (2 * p) && max == if y == 0 then W64 - 1 else Wrap(power / y + 1)
    ensures P / D < W64 - 1 && P / D <= max && power / (y + 1) <= P / D && power / (y + 1) <= power
  {
    assert P == (2 * p) * power;
    FitsIn64(p, P, D);
    LowerGuess(p, P, D, power, y);
    QuotientBelow(power, y + 1);
    if y != 0 {
      UpperGuess(p, P, D, power, y);
      QuotientBelow(power, y);
      Small(power / y + 1);
    }
  }
}
