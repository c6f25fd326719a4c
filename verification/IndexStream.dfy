/** The index segment as a list of tokens, and the two segments framed into one stored value. */
module IndexStream {
  import opened GoTypes
  import opened Varint
  import opened StringPool

  const DATA_VERSION: U64 := 1

  /** What one call of a primitive writer method puts into the index segment. */
  datatype Token = Coder(c: Byte) | Unsigned(u: U64) | Signed(i: I64) | Text(s: Bytes)

  /** The bytes of one token, given the strings of the pool. */
  function TokenBytes(t: Token, order: seq<Bytes>): Bytes
  {
    match t
    case Coder(c) => [c]
    case Unsigned(u) => Leb(u)
    case Signed(i) => Leb(ZigZag(i))
    case Text(s) => Leb(ToU64(Offset(order, s)))
  }

  function Stream(ts: seq<Token>, order: seq<Bytes>): Bytes {
    if ts == [] then [] else TokenBytes(ts[0], order) + Stream(ts[1..], order)
  }

  /** The distinct strings of a token list, in order of first use. */
  function Order(ts: seq<Token>): seq<Bytes> {
    if ts == [] then []
    else
      var before := Order(ts[..|ts| - 1]);
      match ts[|ts| - 1]
      case Text(s) => Intern(before, s)
      case _ => before
  }

  ghost predicate Covers(order: seq<Bytes>, ts: seq<Token>) {
    forall s :: Text(s) in ts ==> s in order
  }

  function Frame(pool: Bytes, data: Bytes): Bytes {
    Leb(DATA_VERSION) + Leb(ToU64(|pool|)) + Leb(ToU64(|data|)) + pool + data
  }

  /** The stored value that a token list ends up as. */
  function Encode(ts: seq<Token>): Bytes {
    Frame(Pool(Order(ts)), Stream(ts, Order(ts)))
  }

  lemma {:induction false} StreamConcat(a: seq<Token>, b: seq<Token>, order: seq<Bytes>)
    ensures Stream(a + b, order) == Stream(a, order) + Stream(b, order)
  {
    if a == [] {
      assert a + b == b;
    } else {
      var head := TokenBytes(a[0], order);
      assert (a + b)[0] == a[0] && (a + b)[1..] == a[1..] + b;
      StreamConcat(a[1..], b, order);
      assert head + (Stream(a[1..], order) + Stream(b, order)) == head + Stream(a[1..], order) + Stream(b, order);
    }
  }

  /** Every string is interned, once, and the strings of a prefix come first. */
  lemma {:induction false} OrderInvariant(ts: seq<Token>)
    ensures Distinct(Order(ts)) && Covers(Order(ts), ts)
    ensures forall s :: s in Order(ts) ==> Text(s) in ts
  {
    if ts != [] {
      var front, last := ts[..|ts| - 1], ts[|ts| - 1];
      OrderInvariant(front);
      assert ts == front + [last];
      hide Distinct, Intern;
      if last.Text? {
        InternOnce(Order(front), last.s);
      }
    }
  }

  lemma {:induction false} InternOnce(order: seq<Bytes>, s: Bytes)
    requires Distinct(order)
    ensures Distinct(Intern(order, s))
    ensures forall t :: t in Intern(order, s) <==> t in order || t == s
  {
  }

  lemma {:induction false} OrderOnlyGrows(a: seq<Token>, b: seq<Token>)
    requires a <= b
    ensures Order(a) <= Order(b)
    decreases |b|
  {
    if a != b {
      OrderOnlyGrows(a, b[..|b| - 1]);
    }
  }

  /** Bytes already emitted mean the same under any later pool. */
  lemma {:induction false} StreamStable(ts: seq<Token>, a: seq<Bytes>, b: seq<Bytes>)
    requires a <= b && Distinct(b) && Covers(a, ts)
    ensures Stream(ts, a) == Stream(ts, b)
  {
    if ts != [] {
      PoolOnlyGrows(a, b);
      StreamStable(ts[1..], a, b);
      assert TokenBytes(ts[0], a) == TokenBytes(ts[0], b);
    }
  }

  /** Whatever is written later, the offsets and bytes already out keep their meaning. */
  lemma {:induction false} EmittedBytesStay(a: seq<Token>, b: seq<Token>)
    requires a <= b
    ensures Pool(Order(a)) <= Pool(Order(b))
    ensures Stream(a, Order(a)) <= Stream(b, Order(b))
    ensures forall s :: s in Order(a) ==> Offset(Order(a), s) == Offset(Order(b), s)
  {
    OrderOnlyGrows(a, b);
    OrderInvariant(a);
    OrderInvariant(b);
    PoolOnlyGrows(Order(a), Order(b));
    StreamStable(a, Order(a), Order(b));
    StreamConcat(a, b[|a|..], Order(b));
    assert a + b[|a|..] == b;
  }

  /** One more token: its string is interned, and its bytes go behind the bytes already there. */
  lemma {:induction false} StreamAppend(ts: seq<Token>, t: Token)
    ensures Order(ts + [t]) == if t.Text? then Intern(Order(ts), t.s) else Order(ts)
    ensures Stream(ts + [t], Order(ts + [t])) == Stream(ts, Order(ts)) + TokenBytes(t, Order(ts + [t]))
  {
    assert (ts + [t])[..|ts + [t]| - 1] == ts;
    var order := Order(ts + [t]);
    OrderInvariant(ts);
    StreamStable(ts, Order(ts), order);
    StreamConcat(ts, [t], order);
    StreamOne(t, order);
  }

  lemma {:induction false} StreamOne(t: Token, order: seq<Bytes>)
    ensures Stream([t], order) == TokenBytes(t, order)
  {
    hide TokenBytes;
    assert Stream([t], order) == TokenBytes(t, order) + Stream([], order);
  }

  /** Every token takes at least one byte. */
  lemma {:induction false} StreamLength(ts: seq<Token>, order: seq<Bytes>)
    ensures |Stream(ts, order)| >= |ts|
  {
    if ts != [] {
      StreamLength(ts[1..], order);
    }
  }
}
