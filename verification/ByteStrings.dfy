/** Numbers as sequences of bytes, lowest byte first. */
module ByteStrings {

  import opened Bits

  function Pow256(n: nat): (r: int)
    ensures r > 0
  {
    if n == 0 then 1 else 256 * Pow256(n - 1)
  }

  function ToNum(s: seq<Byte>): nat {
    if s == [] then 0 else s[0] + 256 * ToNum(s[1..])
  }

  /** The lowest n bytes of x. */
  function ToBytes(x: nat, n: nat): (s: seq<Byte>)
    ensures |s| == n
  {
    if n == 0 then [] else [x % 256] + ToBytes(x / 256, n - 1)
  }

  /** Byte i of x. */
  function Digit(x: nat, i: nat): Byte {
    if i == 0 then x % 256 else Digit(x / 256, i - 1)
  }

  lemma {:induction false} DigitOf(x: nat, n: nat, i: nat)
    requires i < n
    ensures ToBytes(x, n)[i] == Digit(x, i)
  {
    if i > 0 { DigitOf(x / 256, n - 1, i - 1); }
  }

  lemma {:induction false} BytesOfNum(s: seq<Byte>)
    ensures ToBytes(ToNum(s), |s|) == s
  {
    if s != [] {
      var x := ToNum(s);
      assert x % 256 == s[0] && x / 256 == ToNum(s[1..]);
      BytesOfNum(s[1..]);
      assert s == [s[0]] + s[1..];
    }
  }

  lemma {:induction false} NumOfBytes(x: nat, n: nat)
    ensures ToNum(ToBytes(x, n)) == x % Pow256(n)
  {
    if n > 0 {
      NumOfBytes(x / 256, n - 1);
      assert ToBytes(x, n)[1..] == ToBytes(x / 256, n - 1);
      ModStep(x, Pow256(n - 1));
    } else {
      assert x % 1 == 0;
    }
  }

  lemma SmallNum(x: nat, n: nat)
    requires x < Pow256(n)
    ensures ToNum(ToBytes(x, n)) == x
  {
    NumOfBytes(x, n);
  }

  /** x mod 256 m, by the lowest byte and the rest. */
  lemma ModStep(x: nat, m: nat)
    requires m > 0
    ensures x % (256 * m) == x % 256 + 256 * ((x / 256) % m)
  {
    var h := x / 256;
    var q, r := h / m, h % m;
    assert h == q * m + r;
    assert x == 256 * h + x % 256;
    var z := x % 256 + 256 * r;
    assert x == q * (256 * m) + z by { assert 256 * (q * m) == q * (256 * m); }
    DivUnique(x, 256 * m, q, z);
  }

  lemma MulDistributes(a: int, b: int, d: int)
    ensures (a - b) * d == a * d - b * d && (a + b) * d == a * d + b * d
  {
  }

  lemma SmallMultiple(k: int, m: int, d: int)
    requires -m < d < m && d == k * m
    ensures k == 0
  {
  }

  lemma {:induction false} NumJoin(a: seq<Byte>, b: seq<Byte>)
    ensures ToNum(a + b) == ToNum(a) + Pow256(|a|) * ToNum(b)
  {
    if a == [] {
      assert a + b == b;
    } else {
      assert (a + b)[1..] == a[1..] + b;
      NumJoin(a[1..], b);
      var p, t := Pow256(|a| - 1), ToNum(b);
      assert 256 * (p * t) == (256 * p) * t;
    }
  }

  /** Bytes d to d + n of x. */
  function Middle(x: nat, d: nat, n: nat): nat {
    ToNum(ToBytes(x, d + n)[d..])
  }

  lemma MiddleBytes(x: nat, d: nat, n: nat)
    ensures ToBytes(Middle(x, d, n), n) == ToBytes(x, d + n)[d..]
  {
    BytesOfNum(ToBytes(x, d + n)[d..]);
  }

  /** Taking bytes from the middle is a shift and a truncation. */
  lemma {:induction false} MiddleIsShift(x: nat, d: nat, n: nat)
    ensures Middle(x, d, n) == (x / Pow256(d)) % Pow256(n)
    decreases d
  {
    if d == 0 {
      assert ToBytes(x, n)[0..] == ToBytes(x, n);
      NumOfBytes(x, n);
    } else {
      assert ToBytes(x, d + n)[d..] == ToBytes(x / 256, d - 1 + n)[d - 1..];
      MiddleIsShift(x / 256, d - 1, n);
      DivDiv(x, 256, Pow256(d - 1));
    }
  }
}
