/** Multiples of a number in wrapping 64-bit arithmetic. */
module WordArithmetic {
  import opened GoTypes

  function Pow2(k: nat): (r: nat)
    ensures r >= 1
  {
    if k == 0 then 1 else 2 * Pow2(k - 1)
  }

  /** How often 2 divides b. */
  function Twos(b: int): nat
    requires b != 0
    decreases if b < 0 then -b else b
  {
    if b % 2 == 0 then 1 + Twos(b / 2) else 0
  }

  /** The largest power of two that divides b. */
  function LowBit(b: int): (r: nat)
    requires b != 0
    ensures r >= 1
  {
    Pow2(Twos(b))
  }

  lemma {:induction false} Pow2Add(j: nat, k: nat)
    ensures Pow2(j + k) == Pow2(j) * Pow2(k)
  {
    if k > 0 {
      Pow2Add(j, k - 1);
      assert Pow2(j) * (2 * Pow2(k - 1)) == 2 * (Pow2(j) * Pow2(k - 1));
    }
  }

  lemma {:induction false} Squared(k: nat, v: nat)
    requires Pow2(k) == v
    ensures Pow2(k + k) == v * v
  {
    Pow2Add(k, k);
  }

  lemma {:induction false} WordSizes()
    ensures Pow2(63) == TWO_63 && Pow2(64) == TWO_64
  {
    assert Pow2(1) == 2;
    assert Pow2(64) == 2 * Pow2(63);
    hide Pow2;
    Squared(1, 2);
    Squared(2, 4);
    Squared(4, 0x10);
    Squared(8, 0x100);
    Squared(16, 0x1_0000);
    Squared(32, TWO_32);
  }

  /** Without its twos b is odd. */
  lemma {:induction false} OddPart(b: int) returns (o: int)
    requires b != 0
    ensures b == LowBit(b) * o && o % 2 == 1
    decreases if b < 0 then -b else b
  {
    if b % 2 == 0 {
      o := OddPart(b / 2);
      assert b == 2 * (LowBit(b / 2) * o) == (2 * LowBit(b / 2)) * o;
    } else {
      o := b;
    }
  }

  lemma {:induction false} TwosBelow(b: int, k: nat)
    requires b != 0 && b < Pow2(k) && -b < Pow2(k)
    ensures Twos(b) < k
    decreases k
  {
    if b % 2 == 0 {
      TwosBelow(b / 2, k - 1);
    }
  }

  /** Odd numbers have an inverse modulo every power of two. */
  lemma {:induction false} OddInverse(o: int, k: nat) returns (x: nat, q: int)
    requires o % 2 == 1
    ensures x >= 1 && o * x == 1 + Pow2(k) * q
  {
    if k == 0 {
      x, q := 1, o - 1;
    } else {
      x, q := OddInverse(o, k - 1);
      x, q := HigherInverse(o, x, Pow2(k - 1), q);
    }
  }

  lemma {:induction false} HigherInverse(o: int, x: nat, m: nat, q: int) returns (x': nat, q': int)
    requires o % 2 == 1 && x >= 1 && o * x == 1 + m * q
    ensures x' >= 1 && o * x' == 1 + (2 * m) * q'
  {
    if q % 2 == 0 {
      x', q' := x, q / 2;
      assert q == 2 * q';
      assert m * (2 * q') == (2 * m) * q';
    } else {
      x', q' := x + m, (q + o) / 2;
      assert q + o == 2 * q';
      assert o * (x + m) == 1 + m * (q + o);
      assert m * (2 * q') == (2 * m) * q';
    }
  }

  /** Wrapping adds a multiple of 2^64. */
  lemma {:induction false} Wrapped(x: int) returns (z: int)
    ensures ToI64(x) == x + TWO_64 * z
  {
    z := -((x + TWO_63) / TWO_64);
  }

  lemma {:induction false} WrapUnique(v: I64, z: int)
    ensures ToI64(v + TWO_64 * z) == v
  {
  }

  /** Intermediate wrapping makes no difference. */
  lemma {:induction false} WrapAdd(x: int, y: int)
    ensures ToI64(ToI64(x) + y) == ToI64(x + y)
  {
    var z := Wrapped(x);
    var w := Wrapped(x + y);
    assert ToI64(x) + y == ToI64(x + y) + TWO_64 * (z - w);
    WrapUnique(ToI64(x + y), z - w);
  }

  /** A word apart from 0 and the lowest one, in terms of its twos. */
  lemma {:induction false} Parts(b: I64) returns (k: nat, o: int)
    requires b != 0 && b != -TWO_63
    ensures k <= 62 && LowBit(b) == Pow2(k) && b == Pow2(k) * o && o % 2 == 1
    ensures Pow2(k) * Pow2(63 - k) == TWO_63 && Pow2(k) * Pow2(64 - k) == TWO_64
  {
    WordSizes();
    TwosBelow(b, 63);
    k := Twos(b);
    o := OddPart(b);
    Pow2Add(k, 64 - k);
    Pow2Add(k, 63 - k);
  }

  lemma {:induction false} Scaled(g: int, o: int, x: int, y: int, m: int, q: int)
    requires o * x == 1 + m * q
    ensures (x * y) * (g * o) == g * y + (g * m) * (q * y)
  {
    calc {
      (x * y) * (g * o);
      (o * x) * (g * y);
      (1 + m * q) * (g * y);
      g * y + (m * q) * (g * y);
      g * y + (g * m) * (q * y);
    }
  }

  lemma {:induction false} Factored(g: int, n: int, o: int, m: int, z: int)
    ensures n * (g * o) + (g * m) * z == g * (n * o + m * z)
  {
  }

  lemma {:induction false} ProductGrows(g: nat, a: int, b: int)
    requires a <= b
    ensures g * a <= g * b
  {
  }

  lemma {:induction false} SmallerFactor(g: nat, w: int, h: int)
    requires g * w < g * h
    ensures g * w <= g * h - g
  {
    if w >= h {
      ProductGrows(g, h, w);
    } else {
      ProductGrows(g, w, h - 1);
      assert g * (h - 1) == g * h - g;
    }
  }

  lemma {:induction false} ProductPositive(x: nat, y: nat)
    requires x >= 1 && y >= 1
    ensures x * y >= 1
  {
  }

  lemma {:induction false} Reaches(p: int, g: nat, h: nat, r: int)
    requires g >= 1 && h >= 1 && g * h == TWO_63 && p == g * (h - 1) + TWO_64 * r
    ensures ToI64(p) == TWO_63 - g
  {
    hide ToI64;
    assert g * (h - 1) == TWO_63 - g;
    ProductGrows(g, 1, h);
    WrapUnique(TWO_63 - g, r);
  }

  /** The highest multiple of b that can be reached is the highest word with as many twos. */
  lemma {:induction false} HighestMultiple(b: I64) returns (n: nat)
    requires b != 0 && b != -TWO_63
    ensures n >= 1 && ToI64(n * b) == TWO_63 - LowBit(b)
  {
    var k, o := Parts(b);
    var g, m, h := Pow2(k), Pow2(64 - k), Pow2(63 - k);
    var x, q := OddInverse(o, 64 - k);
    assert h == 2 * Pow2(62 - k) && m == 2 * h;
    hide *;
    n := x * (h - 1);
    ProductPositive(x, h - 1);
    Scaled(g, o, x, h - 1, m, q);
    Reaches(n * b, g, h, q * (h - 1));
  }

  /** No multiple of b lies above it. */
  lemma {:induction false} NoHigherMultiple(b: I64, n: nat)
    requires b != 0 && b != -TWO_63
    ensures ToI64(n * b) <= TWO_63 - LowBit(b)
  {
    var k, o := Parts(b);
    var g, m, h := Pow2(k), Pow2(64 - k), Pow2(63 - k);
    hide *;
    var z := Wrapped(n * b);
    Factored(g, n, o, m, z);
    SmallerFactor(g, n * o + m * z, h);
  }
}
