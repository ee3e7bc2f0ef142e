/** Bitwise operations on machine words, with words as natural numbers. */
module Bits {
  type Byte = x: nat | x < 256

  function Pow2(n: nat): (r: nat)
    ensures r > 0
  {
    if n == 0 then 1 else 2 * Pow2(n - 1)
  }

  /** Bitwise or. */
  function Or(x: nat, y: nat): nat
    decreases x + y
  {
    if x == 0 then y else if y == 0 then x
    else 2 * Or(x / 2, y / 2) + (if x % 2 == 1 || y % 2 == 1 then 1 else 0)
  }

  /** Bitwise and. */
  function And(x: nat, y: nat): nat
    decreases x
  {
    if x == 0 || y == 0 then 0
    else 2 * And(x / 2, y / 2) + (if x % 2 == 1 && y % 2 == 1 then 1 else 0)
  }

  /** x & ~y */
  function AndNot(x: nat, y: nat): nat
    decreases x
  {
    if x == 0 then 0 else 2 * AndNot(x / 2, y / 2) + (if x % 2 == 1 && y % 2 == 0 then 1 else 0)
  }

  function Shl(x: nat, l: nat): (r: nat)
    ensures r >= x
  {
    if l == 0 then x else 2 * Shl(x, l - 1)
  }

  function Shr(x: nat, l: nat): nat {
    if l == 0 then x else Shr(x / 2, l - 1)
  }

  /** The w bits of x from bit l up. */
  function Field(x: nat, l: nat, w: nat): nat {
    Shr(x, l) % Pow2(w)
  }

  lemma OrUnfold(x: nat, y: nat)
    ensures Or(x, y) == 2 * Or(x / 2, y / 2) + (if x % 2 == 1 || y % 2 == 1 then 1 else 0)
  {
  }

  lemma AndUnfold(x: nat, y: nat)
    ensures And(x, y) == 2 * And(x / 2, y / 2) + (if x % 2 == 1 && y % 2 == 1 then 1 else 0)
  {
  }

  lemma AndNotUnfold(x: nat, y: nat)
    ensures AndNot(x, y) == 2 * AndNot(x / 2, y / 2) + (if x % 2 == 1 && y % 2 == 0 then 1 else 0)
  {
  }

  /** Or-ing a value into bits that are clear adds it. */
  lemma {:induction false} OrIntoClear(x: nat, v: nat, l: nat, w: nat)
    requires v < Pow2(w) && Field(x, l, w) == 0
    ensures Or(x, Shl(v, l)) == x + Shl(v, l)
    decreases l + w
  {
    if l > 0 {
      OrUnfold(x, Shl(v, l));
      OrIntoClear(x / 2, v, l - 1, w);
    } else if w > 0 {
      OrUnfold(x, v);
      EvenHalf(x, Pow2(w - 1));
      OrIntoClear(x / 2, v / 2, 0, w - 1);
    }
  }

  /** The low bit of an or, and the rest of it. */
  lemma OrParts(x: nat, y: nat)
    ensures Or(x, y) / 2 == Or(x / 2, y / 2)
    ensures Or(x, y) % 2 == (if x % 2 == 1 || y % 2 == 1 then 1 else 0)
  {
    OrUnfold(x, y);
  }

  lemma SameParts(p: nat, q: nat)
    requires p / 2 == q / 2 && p % 2 == q % 2
    ensures p == q
  {
  }

  lemma {:induction false} OrAssoc(x: nat, y: nat, z: nat)
    ensures Or(Or(x, y), z) == Or(x, Or(y, z))
    decreases x + y + z
  {
    if x > 0 && y > 0 && z > 0 {
      OrAssoc(x / 2, y / 2, z / 2);
      var xy, yz := Or(x, y), Or(y, z);
      OrParts(x, y);
      OrParts(y, z);
      OrParts(xy, z);
      OrParts(x, yz);
      SameParts(Or(xy, z), Or(x, yz));
    }
  }

  lemma {:induction false} OrComm(x: nat, y: nat)
    ensures Or(x, y) == Or(y, x)
    decreases x + y
  {
    if x > 0 && y > 0 { OrComm(x / 2, y / 2); }
  }

  lemma {:induction false} AndLow(x: nat, w: nat)
    ensures And(x, Pow2(w) - 1) == x % Pow2(w)
    decreases w
  {
    if w > 0 {
      var p := Pow2(w - 1);
      AndUnfold(x, 2 * p - 1);
      assert (2 * p - 1) / 2 == p - 1 && (2 * p - 1) % 2 == 1;
      AndLow(x / 2, w - 1);
      ModDouble(x, p);
    }
  }

  /** Clearing the low w bits rounds down. */
  lemma {:induction false} AndNotLow(x: nat, w: nat)
    ensures AndNot(x, Pow2(w) - 1) + x % Pow2(w) == x
    decreases w
  {
    if w == 0 {
      AndNotZero(x);
    } else {
      var p, q, h := Pow2(w - 1), Pow2(w), x / 2;
      assert (q - 1) / 2 == p - 1 && (q - 1) % 2 == 1;
      AndNotUnfold(x, q - 1);
      AndNotLow(h, w - 1);
      ModDouble(x, p);
      assert x % q == 2 * (h % p) + x % 2;
    }
  }

  lemma {:induction false} AndNotZero(x: nat)
    ensures AndNot(x, 0) == x
  {
    if x > 0 { AndNotZero(x / 2); }
  }

  /** And-ing with w ones at bit l keeps just that field. */
  lemma {:induction false} AndMask(x: nat, l: nat, w: nat)
    ensures And(x, Shl(Pow2(w) - 1, l)) == Shl(Field(x, l, w), l)
    decreases l
  {
    if l == 0 {
      AndLow(x, w);
    } else {
      var m := Shl(Pow2(w) - 1, l - 1);
      assert (2 * m) / 2 == m && (2 * m) % 2 == 0;
      AndUnfold(x, 2 * m);
      AndMask(x / 2, l - 1, w);
    }
  }

  // ----- shifts as multiplication and division

  lemma {:induction false} ShlMul(x: nat, l: nat)
    ensures Shl(x, l) == x * Pow2(l)
  {
    if l > 0 {
      ShlMul(x, l - 1);
      var p := Pow2(l - 1);
      assert x * (2 * p) == 2 * (x * p);
    }
  }

  lemma {:induction false} ShrDiv(x: nat, l: nat)
    ensures Shr(x, l) == x / Pow2(l)
    decreases l
  {
    if l > 0 {
      ShrDiv(x / 2, l - 1);
      DivDiv(x, 2, Pow2(l - 1));
    }
  }

  lemma DivMod(x: nat, d: nat)
    requires d > 0
    ensures x == d * (x / d) + x % d && x % d < d
  {
  }

  lemma MulLe(d: nat, a: int, b: int)
    requires a <= b
    ensures d * a <= d * b
  {
    assert d * (b - a) >= 0;
  }

  lemma DivUnique(x: int, d: nat, q: int, r: int)
    requires d > 0 && x == d * q + r && 0 <= r < d
    ensures x / d == q && x % d == r
  {
    var q' := x / d;
    assert d * q' <= x < d * q' + d;
    if q' < q {
      MulLe(d, q' + 1, q);
    } else if q < q' {
      MulLe(d, q + 1, q');
    }
  }

  lemma DivDiv(x: nat, a: nat, b: nat)
    requires a > 0 && b > 0
    ensures a * b > 0 && x / (a * b) == (x / a) / b
  {
    var q := x / a;
    var s := q / b;
    var r, t := x - a * q, q - b * s;
    assert 0 <= r < a && 0 <= t < b;
    DivDivParts(x, a, b, s, t, r);
  }

  lemma DivDivParts(x: nat, a: nat, b: nat, s: nat, t: nat, r: nat)
    requires r < a && t < b && x == a * (b * s + t) + r
    ensures a * b > 0 && x / (a * b) == s
  {
    MulLe(a, t, b - 1);
    calc {
      x;
      a * (b * s + t) + r;
      a * (b * s) + a * t + r;
      { assert a * (b * s) == (a * b) * s; }
      (a * b) * s + (a * t + r);
    }
    DivUnique(x, a * b, s, a * t + r);
  }

  lemma EvenHalf(x: nat, p: nat)
    requires p > 0 && x % (2 * p) == 0
    ensures x % 2 == 0 && (x / 2) % p == 0
  {
    var q := x / (2 * p);
    assert x == (2 * p) * q == 2 * (p * q);
    DivUnique(x, 2, p * q, 0);
    DivUnique(p * q, p, q, 0);
  }

  lemma ModDouble(x: nat, p: nat)
    requires p > 0
    ensures x % (2 * p) == 2 * ((x / 2) % p) + x % 2
  {
    var h := x / 2;
    var q, r := h / p, h % p;
    assert x == 2 * h + x % 2 && h == p * q + r;
    assert 2 * (p * q + r) == (2 * p) * q + 2 * r;
    DivUnique(x, 2 * p, q, 2 * r + x % 2);
  }
}
