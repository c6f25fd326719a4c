/** Fixed-width integers, byte strings and the few container types shared by the models. */
module GoTypes {
  const TWO_31: int := 0x8000_0000
  const TWO_32: int := 0x1_0000_0000
  const TWO_63: int := 0x8000_0000_0000_0000
  const TWO_64: int := 0x1_0000_0000_0000_0000

  type Byte = x: int | 0 <= x < 256
  type U32 = x: int | 0 <= x < TWO_32
  type U64 = x: int | 0 <= x < TWO_64
  type I32 = x: int | -TWO_31 <= x < TWO_31
  type I64 = x: int | -TWO_63 <= x < TWO_63

  /** A Go string or byte slice on which only the bytes matter. */
  type Bytes = seq<Byte>

  datatype Option<+T> = None | Some(value: T)

  /** The conversion uint64(x). */
  function ToU64(x: int): U64 {
    x % TWO_64
  }

  /** The conversion int32(x), which keeps the low 32 bits. */
  function ToI32(x: int): I32 {
    (x + TWO_31) % TWO_32 - TWO_31
  }

  /** What wrapping 64-bit arithmetic makes of x. */
  function ToI64(x: int): I64 {
    (x + TWO_63) % TWO_64 - TWO_63
  }

  /** The bytes b are found in d, starting at index p. */
  predicate At(d: Bytes, p: nat, b: Bytes) {
    p + |b| <= |d| && d[p..p + |b|] == b
  }

  lemma {:induction false} AtSplit(d: Bytes, p: nat, a: Bytes, b: Bytes)
    ensures At(d, p, a + b) <==> At(d, p, a) && At(d, p + |a|, b)
  {
    if At(d, p, a + b) {
      assert d[p..p + |a|] == d[p..p + |a + b|][..|a|] == a;
      assert d[p + |a|..p + |a| + |b|] == d[p..p + |a + b|][|a|..] == b;
    }
    if At(d, p, a) && At(d, p + |a|, b) {
      assert d[p..p + |a + b|] == d[p..p + |a|] + d[p + |a|..p + |a| + |b|];
    }
  }

  lemma {:induction false} AtWider(d: Bytes, e: Bytes, p: nat, b: Bytes)
    requires d <= e && At(d, p, b)
    ensures At(e, p, b)
  {
    assert e[p..p + |b|] == d[p..p + |b|];
  }
}
