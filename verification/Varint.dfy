/** Base-128 variable-length integers and ZigZag, as the index writer and encoding/binary do them. */
module Varint {
  import opened GoTypes

  /** x shifted left by i groups of seven bits. */
  function Shl7(x: nat, i: nat): nat {
    if i == 0 then x else 128 * Shl7(x, i - 1)
  }

  /** The base-128 digits of x, lowest first, all but the last marked with the high bit. */
  function Leb(x: nat): Bytes
    decreases x
  {
    if x < 128 then [x] else [x % 128 + 128] + Leb(x / 128)
  }

  /** uint64(x)<<1 ^ uint64(x>>63): the sign mask is all zeros or all ones. */
  function ZigZag(x: I64): U64 {
    var shifted := ToU64(ToU64(x) * 2);
    if x < 0 then TWO_64 - 1 - shifted else shifted
  }

  /** int64(u>>1), complemented when the low bit is set. */
  function UnZigZag(u: U64): I64 {
    if u % 2 == 0 then u / 2 else -(u / 2) - 1
  }

  /**
   * What binary.ReadUvarint leaves behind: the value returned, errors ignored, and the position
   * after the last byte taken. `i` counts the bytes taken so far and `acc` is the partial value.
   */
  function ReadLeb(d: Bytes, p: nat, i: nat, acc: U64): (r: (U64, nat))
    requires p <= |d|  || i == 0
    ensures p <= |d| ==> p <= r.1 <= |d|
    ensures p > |d| ==> r == (acc, p)
    decreases 10 - i
  {
    if i >= 10 || p >= |d| then (acc, p)
    else
      var b := d[p];
      if b >= 128 then ReadLeb(d, p + 1, i + 1, ToU64(acc + Shl7(b % 128, i)))
      else if i == 9 && b > 1 then (acc, p + 1)
      else (ToU64(acc + Shl7(b, i)), p + 1)
  }

  lemma {:induction false} Shl7Nine(x: nat)
    ensures Shl7(x, 9) == TWO_63 * x
  {
    assert Shl7(x, 1) == 128 * x;
    assert Shl7(x, 2) == 0x4000 * x;
    assert Shl7(x, 4) == 0x1000_0000 * x;
    assert Shl7(x, 6) == 0x400_0000_0000 * x;
    assert Shl7(x, 8) == 0x100_0000_0000_0000 * x;
  }

  lemma {:induction false} Shl7Add(x: nat, y: nat, i: nat)
    ensures Shl7(x + y, i) == Shl7(x, i) + Shl7(y, i)
  {
    if i > 0 {
      Shl7Add(x, y, i - 1);
    }
  }

  lemma {:induction false} Shl7Group(x: nat, i: nat)
    ensures Shl7(128 * x, i) == Shl7(x, i + 1) >= x
  {
    if i > 0 {
      Shl7Group(x, i - 1);
    }
  }

  /** The shifts and the sign mask amount to 2x and -2x-1. */
  lemma {:induction false} ZigZagValue(x: I64)
    ensures ZigZag(x) == if x < 0 then -2 * x - 1 else 2 * x
  {
    if x < 0 {
      assert ToU64(x) == x + TWO_64;
      assert ToU64(2 * (x + TWO_64)) == 2 * x + TWO_64;
    }
  }

  /** ZigZag is a bijection between int64 and uint64. */
  lemma {:induction false} ZigZagInverse(x: I64, u: U64)
    ensures UnZigZag(ZigZag(x)) == x
    ensures ZigZag(UnZigZag(u)) == u
  {
    hide ZigZag;
    ZigZagValue(x);
    ZigZagValue(UnZigZag(u));
  }

  lemma {:induction false} LebLength(x: nat, k: nat)
    requires x < Shl7(1, k) && k >= 1
    ensures 1 <= |Leb(x)| <= k
  {
    if x >= 128 {
      assert Shl7(1, 1) == 128;
      LebLength(x / 128, k - 1);
    }
  }

  /** Every 64-bit word takes between one and ten bytes. */
  lemma {:induction false} LebAtMostTen(x: U64)
    ensures 1 <= |Leb(x)| <= 10
  {
    Shl7Nine(1);
    LebLength(x, 10);
  }

  /** The last digit completes the value; in the tenth place it can only be 0 or 1. */
  lemma {:induction false} LastDigit(d: Bytes, p: nat, i: nat, acc: U64)
    requires p < |d| && d[p] < 128 && i <= 9
    requires acc + Shl7(d[p], i) < TWO_64
    ensures ReadLeb(d, p, i, acc) == (acc + Shl7(d[p], i), p + 1)
  {
    Shl7Nine(d[p]);
  }

  /** A marked digit goes into its place, and reading goes on behind it. */
  lemma {:induction false} MoreDigits(d: Bytes, p: nat, i: nat, acc: U64)
    requires p < |d| && d[p] >= 128 && i <= 9
    requires acc + Shl7(d[p] - 128, i) < TWO_64
    ensures ReadLeb(d, p, i, acc) == ReadLeb(d, p + 1, i + 1, acc + Shl7(d[p] - 128, i))
  {
    hide Shl7;
    var digit := Shl7(d[p] - 128, i);
    assert d[p] % 128 == d[p] - 128 && ToU64(acc + digit) == acc + digit;
    hide ToU64;
  }

  /** The lowest digit and the rest of x, each shifted to its own place, make up x in its place. */
  lemma {:induction false} DigitStep(x: nat, i: nat)
    ensures Shl7(x % 128, i) + Shl7(x / 128, i + 1) == Shl7(x, i)
  {
    assert x == 128 * (x / 128) + x % 128;
    Shl7Add(128 * (x / 128), x % 128, i);
    Shl7Group(x / 128, i);
  }

  lemma {:induction false} ReadLebTail(d: Bytes, p: nat, i: nat, acc: U64, x: nat)
    requires At(d, p, Leb(x)) && i <= 9
    requires acc + Shl7(x, i) < TWO_64
    ensures ReadLeb(d, p, i, acc) == (acc + Shl7(x, i), p + |Leb(x)|)
    decreases x
  {
    assert d[p] == d[p..p + |Leb(x)|][0] == Leb(x)[0];
    if x < 128 {
      LastDigit(d, p, i, acc);
    } else {
      var q, r := x / 128, x % 128;
      AtSplit(d, p, [r + 128], Leb(q));
      DigitStep(x, i);
      if i == 9 {
        Shl7Nine(x);
      }
      MoreDigits(d, p, i, acc);
      ReadLebTail(d, p + 1, i + 1, acc + Shl7(r, i), q);
    }
  }

  /** Reading undoes writing, wherever the digits stand and whatever follows them. */
  lemma {:induction false} ReadLebOfLeb(d: Bytes, p: nat, x: U64)
    requires At(d, p, Leb(x))
    ensures ReadLeb(d, p, 0, 0) == (x, p + |Leb(x)|)
  {
    ReadLebTail(d, p, 0, 0, x);
  }

  /** No encoding is a proper prefix of another one. */
  lemma {:induction false} LebPrefixFree(x: U64, y: U64)
    requires Leb(x) <= Leb(y)
    ensures x == y
  {
    var d := Leb(y);
    assert d[..|Leb(y)|] == d;
    ReadLebOfLeb(d, 0, x);
    ReadLebOfLeb(d, 0, y);
  }

  /** What base-128 digits stand for, marks aside. */
  function Value(digits: Bytes): nat {
    if digits == [] then 0 else digits[0] % 128 + 128 * Value(digits[1..])
  }

  /** The digits written stand for x, are marked up to the last one, and there is no zero in front. */
  lemma {:induction false} LebMeans(x: nat)
    ensures var d := Leb(x);
            && d != [] && Value(d) == x
            && (forall i :: 0 <= i < |d| ==> (d[i] >= 128 <==> i < |d| - 1))
            && (|d| > 1 ==> d[|d| - 1] != 0)
  {
    if x >= 128 {
      var rest := Leb(x / 128);
      LebMeans(x / 128);
      assert Leb(x)[1..] == rest;
      assert forall i :: 0 < i < |Leb(x)| ==> Leb(x)[i] == rest[i - 1];
    }
  }

  /** Reading over marked digits up to q. */
  lemma {:induction false} ReadLebRun(d: Bytes, p: nat, q: nat, i: nat, acc: U64)
    requires p <= q <= |d| && i + q - p <= 10 && forall j :: p <= j < q ==> d[j] >= 128
    ensures ReadLeb(d, p, i, acc) == ReadLeb(d, q, i + q - p, ToU64(acc + Shl7(Value(d[p..q]), i)))
    decreases q - p
  {
    hide *;
    if p == q {
      NothingRead(d[p..q], acc, i);
    } else {
      MarkedDigit(d, p, i, acc);
      ValueStep(d, p, q);
      ReadLebRun(d, p + 1, q, i + 1, ToU64(acc + Shl7(d[p] % 128, i)));
      DigitAndMore(acc, d[p] % 128, Value(d[p + 1..q]), i);
    }
  }

  lemma {:induction false} NothingRead(digits: Bytes, acc: U64, i: nat)
    requires digits == []
    ensures ToU64(acc + Shl7(Value(digits), i)) == acc
  {
    Shl7Zero(i);
    hide Shl7;
  }

  lemma {:induction false} DigitAndMore(acc: int, digit: nat, more: nat, i: nat)
    ensures ToU64(ToU64(acc + Shl7(digit, i)) + Shl7(more, i + 1)) == ToU64(acc + Shl7(digit + 128 * more, i))
  {
    hide Shl7, ToU64;
    Shl7Add(digit, 128 * more, i);
    Shl7Group(more, i);
    SumWraps(acc, Shl7(digit, i), Shl7(more, i + 1));
  }

  lemma {:induction false} ValueStep(d: Bytes, p: nat, q: nat)
    requires p < q <= |d|
    ensures Value(d[p..q]) == d[p] % 128 + 128 * Value(d[p + 1..q])
  {
    assert d[p..q][1..] == d[p + 1..q];
  }

  lemma {:induction false} MarkedDigit(d: Bytes, p: nat, i: nat, acc: U64)
    requires p < |d| && i < 10 && d[p] >= 128
    ensures ReadLeb(d, p, i, acc) == ReadLeb(d, p + 1, i + 1, ToU64(acc + Shl7(d[p] % 128, i)))
  {
    hide Shl7, ToU64;
  }

  lemma {:induction false} Shl7Zero(i: nat)
    ensures Shl7(0, i) == 0
  {
    if i > 0 {
      Shl7Zero(i - 1);
    }
  }

  lemma {:induction false} SumWraps(a: int, b: int, c: int)
    ensures ToU64(ToU64(a + b) + c) == ToU64(a + (b + c))
  {
  }

  /**
   * Reading any bytes: k marked digits and then the end of the data, an unmarked digit, or nothing more because
   * ten bytes are read. A tenth digit above 1 is taken but does not count.
   */
  lemma {:induction false} ReadLebExactly(d: Bytes, p: nat, k: nat)
    requires p + k <= |d| && k <= 10 && forall j :: p <= j < p + k ==> d[j] >= 128
    requires k < 10 && p + k < |d| ==> d[p + k] < 128
    ensures
      ReadLeb(d, p, 0, 0) ==
      if k == 10 || p + k == |d| then (ToU64(Value(d[p..p + k])), p + k)
      else if k == 9 && d[p + k] > 1 then (ToU64(Value(d[p..p + k])), p + k + 1)
      else (ToU64(Value(d[p..p + k]) + Shl7(d[p + k], k)), p + k + 1)
  {
    hide ReadLeb, Value, Shl7, ToU64;
    Unshifted(Value(d[p..p + k]));
    ReadLebRun(d, p, p + k, 0, 0);
    AfterRun(d, p + k, k, Value(d[p..p + k]));
  }

  lemma {:induction false} Unshifted(v: nat)
    ensures Shl7(v, 0) == v
  {
  }

  lemma {:induction false} AfterRun(d: Bytes, q: nat, k: nat, v: nat)
    requires q <= |d| && k <= 10 && (k < 10 && q < |d| ==> d[q] < 128)
    ensures
      ReadLeb(d, q, k, ToU64(v)) ==
      if k == 10 || q == |d| then (ToU64(v), q)
      else if k == 9 && d[q] > 1 then (ToU64(v), q + 1)
      else (ToU64(v + Shl7(d[q], k)), q + 1)
  {
    if k < 10 && q < |d| {
      SumWraps(0, v, Shl7(d[q], k));
    }
    hide Shl7, ToU64;
  }
}
