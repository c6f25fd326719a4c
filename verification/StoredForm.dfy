/** The stored form, byte by byte: what has to stay the same for stores written by earlier versions. */
module StoredForm {
  import opened GoTypes
  import opened Varint
  import opened StringPool
  import opened IndexStream
  import opened Message
  import opened Database

  /** The coders of values, with a one-digit payload each; 1 is 2 in ZigZag form, and -1 is 1. */
  lemma {:induction false} ValueForms(order: seq<Bytes>, k: Bytes)
    requires Offset(order, k) < 128
    ensures
      && Stream(Tokens(LeafVisit(Nil)), order) == [0]
      && Stream(Tokens(LeafVisit(Int(1))), order) == [1, 2] && Stream(Tokens(LeafVisit(Int(-1))), order) == [1, 1]
      && Stream(Tokens(LeafVisit(Uint(1))), order) == [2, 1]
      && Stream(Tokens(LeafVisit(Int32(1))), order) == [3, 2]
      && Stream(Tokens(LeafVisit(Uint32(1))), order) == [4, 1]
      && Stream(Tokens(LeafVisit(Int64(1))), order) == [5, 2]
      && Stream(Tokens(LeafVisit(Uint64(1))), order) == [6, 1]
      && Stream(Tokens(LeafVisit(String(k))), order) == [7, Offset(order, k)]
  {
    hide Pool, Offset, TokenBytes, Stream;
    CountForms(order);
    OneByteEach(1, 1, k, order);
    MinusOne(order);
    Two(Coder(1), Signed(1), order);
    Two(Coder(1), Signed(-1), order);
    Two(Coder(2), Unsigned(1), order);
    Two(Coder(3), Signed(1), order);
    Two(Coder(4), Unsigned(1), order);
    Two(Coder(5), Signed(1), order);
    Two(Coder(6), Unsigned(1), order);
    Two(Coder(7), Text(k), order);
    StreamOne(Coder(0), order);
  }

  lemma {:induction false} MinusOne(order: seq<Bytes>)
    ensures TokenBytes(Signed(-1), order) == [1]
  {
  }

  lemma {:induction false} Two(t: Token, u: Token, order: seq<Bytes>)
    ensures Stream([t, u], order) == TokenBytes(t, order) + TokenBytes(u, order)
  {
    hide TokenBytes;
    assert [t, u] == [t] + [u];
    StreamConcat([t], [u], order);
    StreamOne(t, order);
    StreamOne(u, order);
  }

  /** A map is its number of entries, and for each entry its key and its value; lists and nested maps have coders. */
  lemma {:induction false} MapForms(order: seq<Bytes>, k: Bytes, v: Visit)
    requires Offset(order, k) < 128
    ensures Stream(MsgTokens(MsgVisit([EntryVisit(k, v)])), order) == [1, Offset(order, k)] + Stream(Tokens(v), order)
    ensures Stream(Tokens(NestedVisit(MsgVisit([]))), order) == [8, 0]
    ensures Stream(Tokens(ListVisit([MsgVisit([])])), order) == [9, 1, 0]
  {
    hide Pool, Offset, Tokens, MsgTokens, Stream, TokenBytes;
    EntryForm(order, k, v);
    EmptyMaps();
    CountForms(order);
    Two(Coder(8), Unsigned(0), order);
    Three(Coder(9), Unsigned(1), Unsigned(0), order);
  }

  lemma {:induction false} CountForms(order: seq<Bytes>)
    ensures TokenBytes(Unsigned(0), order) == [0] && TokenBytes(Unsigned(1), order) == [1]
    ensures forall c: Byte :: TokenBytes(Coder(c), order) == [c]
  {
    hide Offset;
  }

  lemma {:induction false} EntryForm(order: seq<Bytes>, k: Bytes, v: Visit)
    requires Offset(order, k) < 128
    ensures Stream(MsgTokens(MsgVisit([EntryVisit(k, v)])), order) == [1, Offset(order, k)] + Stream(Tokens(v), order)
  {
    hide Pool, Offset, Tokens, MsgTokens, Stream;
    OneEntry(k, v);
    StreamConcat([Unsigned(1), Text(k)], Tokens(v), order);
    Two(Unsigned(1), Text(k), order);
  }

  lemma {:induction false} OneEntry(k: Bytes, v: Visit)
    ensures MsgTokens(MsgVisit([EntryVisit(k, v)])) == [Unsigned(1), Text(k)] + Tokens(v)
  {
    hide Tokens;
    var es := [EntryVisit(k, v)];
    assert es[1..] == [] && EntriesTokens([]) == [];
    assert EntriesTokens(es) == [Text(k)] + Tokens(v) + [];
    hide EntriesTokens;
    assert [Unsigned(1)] + ([Text(k)] + Tokens(v)) == [Unsigned(1), Text(k)] + Tokens(v);
  }

  lemma {:induction false} EmptyMaps()
    ensures MsgTokens(MsgVisit([])) == [Unsigned(0)]
    ensures Tokens(NestedVisit(MsgVisit([]))) == [Coder(8), Unsigned(0)]
    ensures Tokens(ListVisit([MsgVisit([])])) == [Coder(9), Unsigned(1), Unsigned(0)]
  {
    assert MsgTokens(MsgVisit([])) == [Unsigned(0)];
    var ms := [MsgVisit([])];
    assert ms[1..] == [] && ElementTokens([]) == [];
    assert ElementTokens(ms) == [Unsigned(0)];
    assert ArrayTokens(ms) == [Unsigned(1)] + [Unsigned(0)];
  }

  // One message of each kind. Its strings are letters, the numbers count up.

  /** "A" and the letters behind it. */
  function Letter(n: nat): Bytes
    requires n < 26
  {
    [65 + n]
  }

  function Letters(n: nat): seq<Bytes>
    requires n <= 26
  {
    seq(n, i requires 0 <= i < n => Letter(i))
  }

  /** Interning from the front. */
  function Interned(order: seq<Bytes>, ts: seq<Token>): seq<Bytes>
    decreases |ts|
  {
    if ts == [] then order else Interned(if ts[0].Text? then Intern(order, ts[0].s) else order, ts[1..])
  }

  lemma {:induction false} OrderInterned(a: seq<Token>, b: seq<Token>)
    ensures Order(a + b) == Interned(Order(a), b)
    decreases |b|
  {
    hide Intern;
    if b == [] {
      assert a + b == a;
    } else {
      StreamAppend(a, b[0]);
      assert a + b == (a + [b[0]]) + b[1..];
      OrderInterned(a + [b[0]], b[1..]);
    }
  }

  /** Each letter takes its length and itself. */
  lemma {:induction false} LettersPooled(n: nat)
    requires n <= 26
    ensures Pool(Letters(n)) == seq(2 * n, i requires 0 <= i < 2 * n => if i % 2 == 0 then 1 else 65 + i / 2)
    ensures forall k: nat :: k < n ==> Offset(Letters(n), Letter(k)) == 2 * k
  {
    if n > 0 {
      LettersPooled(n - 1);
      assert Letters(n) == Letters(n - 1) + [Letter(n - 1)];
      OneMoreString(Letters(n - 1), Letter(n - 1));
    }
  }

  lemma {:induction false} OneMoreString(order: seq<Bytes>, s: Bytes)
    requires |s| == 1
    ensures Pool(order + [s]) == Pool(order) + [1] + s && Offset(order + [s], s) == |Pool(order)|
    ensures forall t :: t != s ==> Offset(order + [s], t) == Offset(order, t)
  {
    SlotAdded(order, s);
    assert (order + [s])[..|order|] == order;
  }

  lemma {:induction false} NewLetter(n: nat)
    requires n < 26
    ensures Intern(Letters(n), Letter(n)) == Letters(n + 1)
  {
    if Letter(n) in Letters(n) {
      var i :| 0 <= i < n && Letter(i) == Letter(n);
    }
    assert Letters(n + 1) == Letters(n) + [Letter(n)];
  }

  lemma {:induction false} Three(t: Token, u: Token, v: Token, order: seq<Bytes>)
    ensures Stream([t, u, v], order) == TokenBytes(t, order) + TokenBytes(u, order) + TokenBytes(v, order)
  {
    hide TokenBytes;
    assert [t, u, v] == [t, u] + [v];
    StreamConcat([t, u], [v], order);
    Two(t, u, order);
    StreamOne(v, order);
  }

  /** A number below 64 in ZigZag form, an unsigned one below 128, and a string by its offset take one byte each. */
  lemma {:induction false} OneByteEach(i: I64, u: U64, s: Bytes, order: seq<Bytes>)
    requires 0 <= i < 64 && u < 128 && Offset(order, s) < 128
    ensures TokenBytes(Signed(i), order) == [2 * i] && TokenBytes(Unsigned(u), order) == [u]
    ensures TokenBytes(Text(s), order) == [Offset(order, s)]
  {
    hide Offset;
  }

  lemma {:induction false} ThreeBytes(ts: seq<Token>, x: Byte, y: Byte, z: Byte, order: seq<Bytes>)
    requires |ts| == 3
    requires TokenBytes(ts[0], order) == [x] && TokenBytes(ts[1], order) == [y] && TokenBytes(ts[2], order) == [z]
    ensures Stream(ts, order) == [x, y, z]
  {
    hide TokenBytes;
    assert ts == [ts[0], ts[1], ts[2]];
    Three(ts[0], ts[1], ts[2], order);
    hide Stream;
  }

  lemma {:induction false} InternedThree(order: seq<Bytes>, ts: seq<Token>)
    requires |ts| == 3
    ensures
      var o1 := if ts[0].Text? then Intern(order, ts[0].s) else order;
      var o2 := if ts[1].Text? then Intern(o1, ts[1].s) else o1;
      Interned(order, ts) == if ts[2].Text? then Intern(o2, ts[2].s) else o2
  {
    hide Intern;
    var o1 := if ts[0].Text? then Intern(order, ts[0].s) else order;
    var o2 := if ts[1].Text? then Intern(o1, ts[1].s) else o1;
    var o3 := if ts[2].Text? then Intern(o2, ts[2].s) else o2;
    assert Interned(order, ts) == Interned(o1, ts[1..]);
    assert ts[1..][0] == ts[1] && ts[1..][1..] == ts[2..];
    assert Interned(o1, ts[1..]) == Interned(o2, ts[2..]);
    assert ts[2..][0] == ts[2] && ts[2..][1..] == [];
    assert Interned(o2, ts[2..]) == Interned(o3, []);
    assert Interned(o3, []) == o3;
  }

  /** Five times three tokens, interned and written out one after the other. */
  lemma {:induction false} FiveTriples(
    a: seq<Token>, b: seq<Token>, c: seq<Token>, d: seq<Token>, e: seq<Token>, order: seq<Bytes>)
    ensures
      var ab := a + b;
      var abc := ab + c;
      var abcd := abc + d;
      && Order(abcd + e) == Interned(Interned(Interned(Interned(Interned([], a), b), c), d), e)
      && var x := Stream(a, order) + Stream(b, order);
      var y := x + Stream(c, order);
      var z := y + Stream(d, order);
      Stream(abcd + e, order) == z + Stream(e, order)
  {
    assert Order([]) == [];
    hide Interned, Order, Stream;
    var ab := a + b;
    var abc := ab + c;
    var abcd := abc + d;
    OrderInterned([], a);
    assert [] + a == a;
    OrderInterned(a, b);
    OrderInterned(ab, c);
    OrderInterned(abc, d);
    OrderInterned(abcd, e);
    StreamConcat(a, b, order);
    StreamConcat(ab, c, order);
    StreamConcat(abc, d, order);
    StreamConcat(abcd, e, order);
  }

  lemma {:induction false} Cut<T>(s: seq<T>)
    requires |s| >= 15
    ensures
      var ab := s[..3] + s[3..6];
      var abc := ab + s[6..9];
      var abcd := abc + s[9..12];
      s[..15] == abcd + s[12..15]
  {
    assert s[..3] + s[3..6] == s[..6];
    assert s[..6] + s[6..9] == s[..9];
    assert s[..9] + s[9..12] == s[..12];
    assert s[..12] + s[12..15] == s[..15];
  }

  /** What group and private messages begin with, the flag in front. */
  function FrontTokens(flag: Byte): seq<Token> {
    [Unsigned(flag), Coder(10), Text(Letter(0)), Signed(1), Coder(10), Signed(2), Signed(3), Signed(4),
     Text(Letter(1)), Signed(5), Text(Letter(2)), Coder(10), Text(Letter(3)), Signed(6), Unsigned(0)]
  }

  lemma {:induction false} FrontForm(flag: Byte, n: nat)
    requires flag < 128 && 4 <= n <= 26
    ensures Stream(FrontTokens(flag), Letters(n)) == [flag, 10, 0, 2, 10, 4, 6, 8, 2, 10, 4, 10, 6, 12, 0]
    ensures Order(FrontTokens(flag)) == Letters(4)
  {
    FrontBytes(flag, n);
    FrontOrder(flag);
    var ts := FrontTokens(flag);
    hide *;
    FrontLength(flag);
    assert ts[12..15] == ts[12..] && ts[..15] == ts;
    Fifteen(ts, Letters(n), [flag, 10, 0, 2, 10, 4, 6, 8, 2, 10, 4, 10, 6, 12, 0]);
  }

  lemma {:induction false} FrontLength(flag: Byte)
    ensures |FrontTokens(flag)| == 15
  {
  }

  lemma {:induction false} FrontTriples(flag: Byte)
    ensures
      var ts := FrontTokens(flag);
      && |ts| == 15 && ts[..3] == [Unsigned(flag), Coder(10), Text(Letter(0))]
      && ts[3..6] == [Signed(1), Coder(10), Signed(2)]
      && ts[6..9] == [Signed(3), Signed(4), Text(Letter(1))] && ts[9..12] == [Signed(5), Text(Letter(2)), Coder(10)]
      && ts[12..] == [Text(Letter(3)), Signed(6), Unsigned(0)]
  {
  }

  lemma {:induction false} FrontBytes(flag: Byte, n: nat)
    requires flag < 128 && 4 <= n <= 26
    ensures
      var ts, order := FrontTokens(flag), Letters(n);
      && Stream(ts[..3], order) == [flag, 10, 0] && Stream(ts[3..6], order) == [2, 10, 4]
      && Stream(ts[6..9], order) == [6, 8, 2] && Stream(ts[9..12], order) == [10, 4, 10]
      && Stream(ts[12..], order) == [6, 12, 0]
  {
    var ts, order := FrontTokens(flag), Letters(n);
    LettersPooled(n);
    CountForms(order);
    OneByteEach(1, flag, Letter(0), order);
    OneByteEach(2, 0, Letter(1), order);
    OneByteEach(3, 0, Letter(2), order);
    OneByteEach(4, 0, Letter(3), order);
    OneByteEach(5, 0, Letter(3), order);
    OneByteEach(6, 0, Letter(3), order);
    FrontTriples(flag);
    hide TokenBytes, Stream, Offset, Pool, Letters, Letter, FrontTokens;
    ThreeBytes(ts[..3], flag, 10, 0, order);
    ThreeBytes(ts[3..6], 2, 10, 4, order);
    ThreeBytes(ts[6..9], 6, 8, 2, order);
    ThreeBytes(ts[9..12], 10, 4, 10, order);
    ThreeBytes(ts[12..], 6, 12, 0, order);
  }

  lemma {:induction false} FrontOrder(flag: Byte)
    ensures
      var ts := FrontTokens(flag);
      Interned(Interned(Interned(Interned(Interned([], ts[..3]), ts[3..6]), ts[6..9]), ts[9..12]), ts[12..])
      == Letters(4)
  {
    var ts := FrontTokens(flag);
    assert Letters(0) == [];
    NewLetter(0);
    NewLetter(1);
    NewLetter(2);
    NewLetter(3);
    FrontTriples(flag);
    hide Intern, Interned, Letters, Letter, FrontTokens;
    InternedThree(Letters(0), ts[..3]);
    InternedThree(Letters(1), ts[3..6]);
    InternedThree(Letters(1), ts[6..9]);
    InternedThree(Letters(2), ts[9..12]);
    InternedThree(Letters(3), ts[12..]);
  }

  /** The frame around n letters and less than 128 bytes of index. */
  lemma {:induction false} Framed(ts: seq<Token>, n: nat, data: Bytes)
    requires n <= 26 && Order(ts) == Letters(n) && Stream(ts, Letters(n)) == data && |data| < 128
    ensures Encode(ts) == [1, 2 * n, |data|] + Pool(Letters(n)) + data
  {
    LettersPooled(n);
    hide Order, Stream, Pool, Letters, Frame;
    FrameForm(Pool(Letters(n)), data);
  }

  lemma {:induction false} FrameForm(pool: Bytes, data: Bytes)
    requires |pool| < 128 && |data| < 128
    ensures Frame(pool, data) == [1, |pool|, |data|] + pool + data
  {
    hide Leb;
    OneDigitLeb(1);
    OneDigitLeb(|pool|);
    OneDigitLeb(|data|);
    assert ToU64(|pool|) == |pool| && ToU64(|data|) == |data|;
    hide ToU64;
    assert [1] + [|pool|] + [|data|] == [1, |pool|, |data|];
  }

  lemma {:induction false} OneDigitLeb(x: nat)
    requires x < 128
    ensures Leb(x) == [x]
  {
  }

  /** A tail of three tokens behind the front. */
  lemma {:induction false} WithTail(flag: Byte, tail: seq<Token>, n: nat, x: Byte, y: Byte, z: Byte)
    requires flag < 128 && 4 <= n <= 26 && |tail| == 3
    requires Interned(Letters(4), tail) == Letters(n) && Stream(tail, Letters(n)) == [x, y, z]
    ensures
      Encode(FrontTokens(flag) + tail) ==
      [1, 2 * n, 18] + Pool(Letters(n)) + [flag, 10, 0, 2, 10, 4, 6, 8, 2, 10, 4, 10, 6, 12, 0, x, y, z]
  {
    var front := FrontTokens(flag);
    FrontForm(flag, n);
    hide FrontTokens, Order, Stream, Interned, Letters, Encode, Pool;
    OrderInterned(front, tail);
    StreamConcat(front, tail, Letters(n));
    Framed(front + tail, n, Stream(front, Letters(n)) + Stream(tail, Letters(n)));
  }

  /** A group message with all parts. */
  lemma {:induction false} GroupForm()
    ensures
      var attribute := Some(Attribute(2, 3, 4, [66], 5));
      var quoted := Some(Quoted([68], 6, []));
      Encode(Log(GroupIn(GroupMessage([65], 1, attribute, [67], quoted, 7, [69], [])))) ==
      [1, 10, 18] + [1, 65, 1, 66, 1, 67, 1, 68, 1, 69]
      + [0, 10, 0, 2, 10, 4, 6, 8, 2, 10, 4, 10, 6, 12, 0, 14, 8, 0]
  {
    var tail := [Signed(7), Text(Letter(4)), Unsigned(0)];
    GroupLog();
    hide Log, FrontTokens;
    LettersPooled(5);
    PoolOfFive();
    OneByteEach(7, 0, Letter(4), Letters(5));
    NewLetter(4);
    hide Letters, Letter, TokenBytes, Intern, Interned, Stream, Encode, Offset, Pool;
    InternedThree(Letters(4), tail);
    ThreeBytes(tail, 14, 8, 0, Letters(5));
    WithTail(0, tail, 5, 14, 8, 0);
  }

  lemma {:induction false} PoolOfFive()
    ensures Pool(Letters(5)) == [1, 65, 1, 66, 1, 67, 1, 68, 1, 69]
  {
    LettersPooled(5);
    hide Pool;
  }

  lemma {:induction false} GroupLog()
    ensures
      var attribute := Some(Attribute(2, 3, 4, [66], 5));
      var quoted := Some(Quoted([68], 6, []));
      Log(GroupIn(GroupMessage([65], 1, attribute, [67], quoted, 7, [69], [])))
      == FrontTokens(0) + [Signed(7), Text(Letter(4)), Unsigned(0)]
  {
    assert ArrayTokens([]) == [Unsigned(0)];
    hide ArrayTokens, ElementTokens;
  }

  /** A private message with all parts. */
  lemma {:induction false} PrivateForm()
    ensures
      var attribute := Some(Attribute(2, 3, 4, [66], 5));
      var quoted := Some(Quoted([68], 6, []));
      Encode(Log(PrivateIn(PrivateMessage([65], 1, attribute, [67], quoted, 7, 8, [])))) ==
      [1, 8, 18] + [1, 65, 1, 66, 1, 67, 1, 68]
      + [1, 10, 0, 2, 10, 4, 6, 8, 2, 10, 4, 10, 6, 12, 0, 14, 16, 0]
  {
    var tail := [Signed(7), Signed(8), Unsigned(0)];
    PrivateLog();
    hide Log, FrontTokens;
    LettersPooled(4);
    PoolOfFour();
    OneByteEach(7, 0, Letter(0), Letters(4));
    OneByteEach(8, 0, Letter(0), Letters(4));
    hide Letters, Letter, TokenBytes, Intern, Interned, Stream, Encode, Offset, Pool;
    InternedThree(Letters(4), tail);
    ThreeBytes(tail, 14, 16, 0, Letters(4));
    WithTail(1, tail, 4, 14, 16, 0);
  }

  lemma {:induction false} PoolOfFour()
    ensures Pool(Letters(4)) == [1, 65, 1, 66, 1, 67, 1, 68]
    ensures Pool(Letters(3)) == [1, 65, 1, 66, 1, 67]
  {
    LettersPooled(4);
    LettersPooled(3);
    hide Pool;
  }

  lemma {:induction false} PrivateLog()
    ensures
      var attribute := Some(Attribute(2, 3, 4, [66], 5));
      var quoted := Some(Quoted([68], 6, []));
      Log(PrivateIn(PrivateMessage([65], 1, attribute, [67], quoted, 7, 8, [])))
      == FrontTokens(1) + [Signed(7), Signed(8), Unsigned(0)]
  {
    assert ArrayTokens([]) == [Unsigned(0)];
    hide ArrayTokens, ElementTokens;
  }

  /** A guild message with all parts. */
  lemma {:induction false} GuildForm()
    ensures
      var attribute := Some(GuildAttribute(2, 3, 4, [66], 5));
      var quoted := Some(Quoted([67], 8, []));
      Encode(Log(GuildIn(GuildMessage([65], attribute, 6, 7, quoted, [])))) ==
      [1, 6, 16] + [1, 65, 1, 66, 1, 67]
      + [2, 10, 0, 10, 2, 3, 4, 2, 10, 6, 7, 10, 4, 16, 0, 0]
  {
    var attribute := Some(GuildAttribute(2, 3, 4, [66], 5));
    var quoted := Some(Quoted([67], 8, []));
    GuildLog();
    PoolOfFour();
    hide *;
    var log := Log(GuildIn(GuildMessage([65], attribute, 6, 7, quoted, [])));
    GuildStream(log);
    Framed(log, 3, [2, 10, 0, 10, 2, 3, 4, 2, 10, 6, 7, 10, 4, 16, 0, 0]);
  }

  lemma {:induction false} GuildStream(log: seq<Token>)
    requires |log| == 16 && log[..3] == [Unsigned(2), Coder(10), Text(Letter(0))]
    requires log[3..6] == [Coder(10), Unsigned(2), Unsigned(3)]
    requires log[6..9] == [Unsigned(4), Text(Letter(1)), Signed(5)]
    requires log[9..12] == [Unsigned(6), Unsigned(7), Coder(10)]
    requires log[12..15] == [Text(Letter(2)), Signed(8), Unsigned(0)] && log[15] == Unsigned(0)
    ensures Stream(log, Letters(3)) == [2, 10, 0, 10, 2, 3, 4, 2, 10, 6, 7, 10, 4, 16, 0, 0]
    ensures Order(log) == Letters(3)
  {
    GuildBytes(log);
    GuildOrder(log);
    GuildJoined(log);
  }

  lemma {:induction false} GuildJoined(log: seq<Token>)
    requires |log| == 16 && log[15] == Unsigned(0)
    requires
      var order := Letters(3);
      && Stream(log[..3], order) == [2, 10, 0] && Stream(log[3..6], order) == [10, 2, 3]
      && Stream(log[6..9], order) == [4, 2, 10] && Stream(log[9..12], order) == [6, 7, 10]
      && Stream(log[12..15], order) == [4, 16, 0]
    requires
      Interned(Interned(Interned(Interned(Interned([], log[..3]), log[3..6]), log[6..9]), log[9..12]), log[12..15])
      == Letters(3)
    ensures Stream(log, Letters(3)) == [2, 10, 0, 10, 2, 3, 4, 2, 10, 6, 7, 10, 4, 16, 0, 0]
    ensures Order(log) == Letters(3)
  {
    hide *;
    Fifteen(log, Letters(3), [2, 10, 0, 10, 2, 3, 4, 2, 10, 6, 7, 10, 4, 16, 0]);
    LastToken(log[..15], Letters(3));
    assert log == log[..15] + [Unsigned(0)];
  }

  lemma {:induction false} LastToken(ts: seq<Token>, order: seq<Bytes>)
    requires Order(ts) == order
    ensures Order(ts + [Unsigned(0)]) == order && Stream(ts + [Unsigned(0)], order) == Stream(ts, order) + [0]
  {
    hide Order, Stream, Interned;
    OrderInterned(ts, [Unsigned(0)]);
    StreamConcat(ts, [Unsigned(0)], order);
    NothingInterned(order);
  }

  /** Fifteen tokens of one byte each, three by three. */
  lemma {:induction false} Fifteen(ts: seq<Token>, order: seq<Bytes>, data: Bytes)
    requires |ts| >= 15 && |data| == 15
    requires Stream(ts[..3], order) == [data[0], data[1], data[2]]
    requires Stream(ts[3..6], order) == [data[3], data[4], data[5]]
    requires Stream(ts[6..9], order) == [data[6], data[7], data[8]]
    requires Stream(ts[9..12], order) == [data[9], data[10], data[11]]
    requires Stream(ts[12..15], order) == [data[12], data[13], data[14]]
    ensures Stream(ts[..15], order) == data
    ensures Order(ts[..15]) ==
            Interned(Interned(Interned(Interned(Interned([], ts[..3]), ts[3..6]), ts[6..9]), ts[9..12]), ts[12..15])
  {
    hide Stream, Order, Interned;
    FiveTriples(ts[..3], ts[3..6], ts[6..9], ts[9..12], ts[12..15], order);
    Cut(ts);
    Cut(data);
    assert data[..15] == data;
    assert data[..3] == [data[0], data[1], data[2]] && data[3..6] == [data[3], data[4], data[5]];
    assert data[6..9] == [data[6], data[7], data[8]] && data[9..12] == [data[9], data[10], data[11]];
    assert data[12..15] == [data[12], data[13], data[14]];
  }

  lemma {:induction false} NothingInterned(order: seq<Bytes>)
    ensures Interned(order, [Unsigned(0)]) == order && Stream([Unsigned(0)], order) == [0]
  {
    assert [Unsigned(0)][1..] == [];
    StreamOne(Unsigned(0), order);
  }

  lemma {:induction false} GuildLog()
    ensures
      var attribute := Some(GuildAttribute(2, 3, 4, [66], 5));
      var quoted := Some(Quoted([67], 8, []));
      var log := Log(GuildIn(GuildMessage([65], attribute, 6, 7, quoted, [])));
      && |log| == 16 && log[..3] == [Unsigned(2), Coder(10), Text(Letter(0))]
      && log[3..6] == [Coder(10), Unsigned(2), Unsigned(3)] && log[6..9] == [Unsigned(4), Text(Letter(1)), Signed(5)]
      && log[9..12] == [Unsigned(6), Unsigned(7), Coder(10)] && log[12..15] == [Text(Letter(2)), Signed(8), Unsigned(0)]
      && log[15] == Unsigned(0)
  {
    assert ArrayTokens([]) == [Unsigned(0)];
    hide ArrayTokens, ElementTokens;
  }

  lemma {:induction false} GuildBytes(log: seq<Token>)
    requires |log| == 16 && log[..3] == [Unsigned(2), Coder(10), Text(Letter(0))]
    requires log[3..6] == [Coder(10), Unsigned(2), Unsigned(3)]
    requires log[6..9] == [Unsigned(4), Text(Letter(1)), Signed(5)]
    requires log[9..12] == [Unsigned(6), Unsigned(7), Coder(10)]
    requires log[12..15] == [Text(Letter(2)), Signed(8), Unsigned(0)]
    ensures
      var order := Letters(3);
      && Stream(log[..3], order) == [2, 10, 0] && Stream(log[3..6], order) == [10, 2, 3]
      && Stream(log[6..9], order) == [4, 2, 10] && Stream(log[9..12], order) == [6, 7, 10]
      && Stream(log[12..15], order) == [4, 16, 0]
  {
    var order := Letters(3);
    LettersPooled(3);
    CountForms(order);
    OneByteEach(5, 2, Letter(0), order);
    OneByteEach(8, 3, Letter(1), order);
    OneByteEach(8, 4, Letter(2), order);
    OneByteEach(8, 6, Letter(2), order);
    OneByteEach(8, 7, Letter(2), order);
    hide TokenBytes, Stream, Offset, Pool, Letters, Letter;
    ThreeBytes(log[..3], 2, 10, 0, order);
    ThreeBytes(log[3..6], 10, 2, 3, order);
    ThreeBytes(log[6..9], 4, 2, 10, order);
    ThreeBytes(log[9..12], 6, 7, 10, order);
    ThreeBytes(log[12..15], 4, 16, 0, order);
  }

  lemma {:induction false} GuildOrder(log: seq<Token>)
    requires |log| == 16 && log[..3] == [Unsigned(2), Coder(10), Text(Letter(0))]
    requires log[3..6] == [Coder(10), Unsigned(2), Unsigned(3)]
    requires log[6..9] == [Unsigned(4), Text(Letter(1)), Signed(5)]
    requires log[9..12] == [Unsigned(6), Unsigned(7), Coder(10)]
    requires log[12..15] == [Text(Letter(2)), Signed(8), Unsigned(0)]
    ensures
      Interned(Interned(Interned(Interned(Interned([], log[..3]), log[3..6]), log[6..9]), log[9..12]), log[12..15])
      == Letters(3)
  {
    assert Letters(0) == [];
    NewLetter(0);
    NewLetter(1);
    NewLetter(2);
    hide Intern, Interned, Letters, Letter;
    InternedThree(Letters(0), log[..3]);
    InternedThree(Letters(1), log[3..6]);
    InternedThree(Letters(1), log[6..9]);
    InternedThree(Letters(2), log[9..12]);
    InternedThree(Letters(2), log[12..15]);
  }
}
