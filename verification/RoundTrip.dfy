/** Reading back what was written: every token list in front of the cursor decodes to what it encodes. */
module RoundTrip {
  import opened GoTypes
  import opened Varint
  import opened StringPool
  import opened IndexStream
  import opened Message
  import opened Decode

  /** The tokens ts stand in front of the cursor p, their strings are pooled, and no segment is too long. */
  ghost predicate Ahead(src: Source, order: seq<Bytes>, p: Cursor, ts: seq<Token>) {
    && src.pool == Pool(order)
    && |src.pool| <= MAX_SLICE && |src.data| <= MAX_SLICE
    && At(src.data, p.pos, Stream(ts, order))
    && Covers(order, ts)
    && Faithful(src.pool, p.strings)
  }

  /** The cursor behind one token; a string leaves its trace in the cache. */
  function After(order: seq<Bytes>, p: Cursor, t: Token): Cursor {
    var strings :=
      if t.Text? && p.strings.Cached? then Cached(CachedRead(Pool(order), p.strings.st, ToU64(Offset(order, t.s))).1)
      else p.strings;
    Cursor(p.pos + |TokenBytes(t, order)|, strings)
  }

  /** The cursor behind the tokens ts. */
  function Behind(order: seq<Bytes>, p: Cursor, ts: seq<Token>): Cursor
    decreases |ts|
  {
    if ts == [] then p else Behind(order, After(order, p, ts[0]), ts[1..])
  }

  lemma {:induction false} BehindMoves(order: seq<Bytes>, p: Cursor, ts: seq<Token>)
    requires Faithful(Pool(order), p.strings)
    ensures Behind(order, p, ts).pos == p.pos + |Stream(ts, order)|
    ensures Faithful(Pool(order), Behind(order, p, ts).strings)
    decreases |ts|
  {
    hide TokenBytes, Pool, Offset, CachedRead, Faithful;
    if ts != [] {
      if ts[0].Text? && p.strings.Cached? {
        ReadStaysFaithful(Pool(order), p.strings.st, ToU64(Offset(order, ts[0].s)));
      }
      BehindMoves(order, After(order, p, ts[0]), ts[1..]);
    }
  }

  lemma {:induction false} BehindConcat(order: seq<Bytes>, p: Cursor, a: seq<Token>, b: seq<Token>)
    ensures Behind(order, p, a + b) == Behind(order, Behind(order, p, a), b)
    decreases |a|
  {
    hide After;
    if a == [] {
      assert a + b == b;
    } else {
      assert (a + b)[0] == a[0] && (a + b)[1..] == a[1..] + b;
      BehindConcat(order, After(order, p, a[0]), a[1..], b);
    }
  }

  lemma {:induction false} AheadSplit(src: Source, order: seq<Bytes>, p: Cursor, a: seq<Token>, b: seq<Token>)
    requires Ahead(src, order, p, a + b)
    ensures Ahead(src, order, p, a)
    ensures Ahead(src, order, Behind(order, p, a), b)
    ensures Behind(order, p, a + b) == Behind(order, Behind(order, p, a), b)
  {
    hide Pool, At, Behind, Faithful;
    StreamConcat(a, b, order);
    AtSplit(src.data, p.pos, Stream(a, order), Stream(b, order));
    BehindConcat(order, p, a, b);
    BehindMoves(order, p, a);
  }

  lemma {:induction false} SlotParts(s: Bytes)
    ensures Slot(s) == Leb(ToU64(|s|)) + s
  {
  }

  /** A stored string is found again at its offset. */
  lemma {:induction false} StringFound(order: seq<Bytes>, s: Bytes)
    requires s in order && |Pool(order)| < TWO_63
    ensures Offset(order, s) < |Pool(order)|
    ensures StringAt(Pool(order), Offset(order, s)) == Some(s)
  {
    hide Slot, Offset, Pool, Leb, ReadLeb;
    var pool, off := Pool(order), Offset(order, s);
    SlotAtOffset(order, s);
    SlotParts(s);
    AtSplit(pool, off, Leb(ToU64(|s|)), s);
    LebAtMostTen(ToU64(|s|));
    ReadLebOfLeb(pool, off, |s|);
  }

  /** What each primitive reader returns in front of the token its writer counterpart emits. */
  ghost predicate Taken(src: Source, order: seq<Bytes>, p: Cursor, t: Token)
    requires p.pos <= |src.data|
  {
    var q := Behind(order, p, [t]);
    match t
    case Coder(c) => ReadByte(src, p) == (c, q)
    case Unsigned(u) => ReadUvarint(src, p) == (u, q)
    case Signed(i) => ReadVarint(src, p) == (i, q)
    case Text(s) => ReadString(src, p) == Done(s, q)
  }

  lemma {:induction false} TakeOne(src: Source, order: seq<Bytes>, p: Cursor, t: Token)
    requires Ahead(src, order, p, [t])
    ensures p.pos < Behind(order, p, [t]).pos <= |src.data|
    ensures Taken(src, order, p, t)
  {
    hide Pool, Offset, Leb, ZigZag, UnZigZag, ReadLeb, StringAt, Stream;
    StreamOne(t, order);
    match t
    case Coder(c) =>
      assert src.data[p.pos] == src.data[p.pos..p.pos + 1][0];
    case Unsigned(u) =>
      ReadLebOfLeb(src.data, p.pos, u);
      LebAtMostTen(u);
    case Signed(i) =>
      ReadLebOfLeb(src.data, p.pos, ZigZag(i));
      LebAtMostTen(ZigZag(i));
      ZigZagInverse(i, 0);
    case Text(s) =>
      StringFound(order, s);
      LebAtMostTen(Offset(order, s));
      ReadLebOfLeb(src.data, p.pos, Offset(order, s));
  }

  /** Takes the first token of a list and leaves the cursor in front of the others. */
  lemma {:induction false} Take(src: Source, order: seq<Bytes>, p: Cursor, t: Token, rest: seq<Token>)
    requires Ahead(src, order, p, [t] + rest)
    ensures p.pos < Behind(order, p, [t]).pos <= |src.data|
    ensures Taken(src, order, p, t)
    ensures Ahead(src, order, Behind(order, p, [t]), rest)
    ensures Behind(order, p, [t] + rest) == Behind(order, Behind(order, p, [t]), rest)
  {
    hide *;
    AheadSplit(src, order, p, [t], rest);
    TakeOne(src, order, p, t);
  }

  lemma {:induction false} TakeText(
    src: Source, order: seq<Bytes>, p: Cursor, s: Bytes, rest: seq<Token>) returns (q: Cursor)
    requires Ahead(src, order, p, [Text(s)] + rest)
    ensures p.pos <= |src.data| && ReadString(src, p) == Done(s, q)
    ensures Ahead(src, order, q, rest)
    ensures Behind(order, p, [Text(s)] + rest) == Behind(order, q, rest)
  {
    hide Ahead, Behind, ReadString;
    Take(src, order, p, Text(s), rest);
    q := Behind(order, p, [Text(s)]);
  }

  /** A count in front of at least as many tokens survives the conversion to uint64. */
  lemma {:induction false} CountFits(src: Source, order: seq<Bytes>, p: Cursor, ts: seq<Token>, n: nat)
    requires Ahead(src, order, p, ts) && n <= |ts|
    ensures ToU64(n) == n <= MAX_SLICE
  {
    StreamLength(ts, order);
  }

  lemma {:induction false} EntriesTokensLength(es: seq<EntryVisit>)
    ensures |es| <= |EntriesTokens(es)|
  {
    if es != [] {
      EntriesTokensLength(es[1..]);
    }
  }

  lemma {:induction false} ElementTokensLength(ms: seq<MsgVisit>)
    ensures |ms| <= |ElementTokens(ms)|
  {
    if ms != [] {
      ElementTokensLength(ms[1..]);
    }
  }

  lemma {:induction false} ScalarRead(src: Source, order: seq<Bytes>, p: Cursor, s: Scalar)
    requires Ahead(src, order, p, ScalarTokens(s))
    ensures p.pos <= |src.data|
    ensures ReadObj(src, p) == Done(Leaf(s), Behind(order, p, ScalarTokens(s)))
  {
    hide Ahead, Behind, Stream, ReadByte, ReadUvarint, ReadVarint, ReadString;
    var ts := ScalarTokens(s);
    assert ts == [ts[0]] + ts[1..];
    Take(src, order, p, ts[0], ts[1..]);
    if |ts| == 2 {
      assert ts[1..] == [ts[1]];
      TakeOne(src, order, Behind(order, p, [ts[0]]), ts[1]);
    }
  }

  lemma {:induction false} ObjRead(src: Source, order: seq<Bytes>, p: Cursor, v: Visit)
    requires Ahead(src, order, p, Tokens(v))
    ensures p.pos <= |src.data|
    ensures ReadObj(src, p) == Done(Visited(v), Behind(order, p, Tokens(v)))
    decreases v, 0
  {
    hide Ahead, Behind;
    match v
    case LeafVisit(s) =>
      ScalarRead(src, order, p, s);
    case NestedVisit(m) =>
      Take(src, order, p, Coder(CODER_MSG), MsgTokens(m));
      MsgRead(src, order, Behind(order, p, [Coder(CODER_MSG)]), m);
    case ListVisit(ms) =>
      Take(src, order, p, Coder(CODER_ARRAY_MSG), ArrayTokens(ms));
      ArrayRead(src, order, Behind(order, p, [Coder(CODER_ARRAY_MSG)]), ms);
  }

  lemma {:induction false} MsgRead(src: Source, order: seq<Bytes>, p: Cursor, m: MsgVisit)
    requires Ahead(src, order, p, MsgTokens(m))
    ensures p.pos <= |src.data|
    ensures ReadMsg(src, p) == Done(VisitedMsg(m), Behind(order, p, MsgTokens(m)))
    decreases m, 1
  {
    hide Ahead, Behind;
    var es := m.entries;
    var count := Unsigned(ToU64(|es|));
    Take(src, order, p, count, EntriesTokens(es));
    EntriesTokensLength(es);
    CountFits(src, order, Behind(order, p, [count]), EntriesTokens(es), |es|);
    EntriesRead(src, order, Behind(order, p, [count]), es, map[]);
  }

  lemma {:induction false} EntriesRead(
    src: Source, order: seq<Bytes>, p: Cursor, es: seq<EntryVisit>, acc: map<Bytes, Value>)
    requires Ahead(src, order, p, EntriesTokens(es))
    ensures p.pos <= |src.data|
    ensures ReadEntries(src, p, |es|, acc) == Done(MSG(PutAll(acc, es)), Behind(order, p, EntriesTokens(es)))
    decreases es, 0
  {
    hide *;
    if es == [] {
      EntriesReadNil(src, order, p, es, acc);
    } else {
      var k, v, rest := es[0].key, es[0].val, EntriesTokens(es[1..]);
      var acc' := acc[k := Visited(v)];
      EntriesCons(es, acc);
      var q := TakeText(src, order, p, k, Tokens(v) + rest);
      AheadSplit(src, order, q, Tokens(v), rest);
      ObjRead(src, order, q, v);
      var t := Behind(order, q, Tokens(v));
      EntriesStep(src, p, |es| - 1, acc, k, q, Visited(v), t);
      EntriesRead(src, order, t, es[1..], acc');
    }
  }

  lemma {:induction false} EntriesCons(es: seq<EntryVisit>, acc: map<Bytes, Value>)
    requires es != []
    ensures EntriesTokens(es) == [Text(es[0].key)] + (Tokens(es[0].val) + EntriesTokens(es[1..]))
    ensures PutAll(acc, es) == PutAll(acc[es[0].key := Visited(es[0].val)], es[1..])
  {
    hide Tokens, Visited;
  }

  lemma {:induction false} EntriesReadNil(
    src: Source, order: seq<Bytes>, p: Cursor, es: seq<EntryVisit>, acc: map<Bytes, Value>)
    requires es == [] && Ahead(src, order, p, EntriesTokens(es))
    ensures p.pos <= |src.data|
    ensures ReadEntries(src, p, |es|, acc) == Done(MSG(PutAll(acc, es)), Behind(order, p, EntriesTokens(es)))
  {
  }

  lemma {:induction false} ArrayRead(src: Source, order: seq<Bytes>, p: Cursor, ms: seq<MsgVisit>)
    requires Ahead(src, order, p, ArrayTokens(ms))
    ensures p.pos <= |src.data|
    ensures ReadArray(src, p) == Done(VisitedList(ms), Behind(order, p, ArrayTokens(ms)))
    decreases ms, 3
  {
    hide Ahead, Behind;
    var count := Unsigned(ToU64(|ms|));
    Take(src, order, p, count, ElementTokens(ms));
    ElementTokensLength(ms);
    CountFits(src, order, Behind(order, p, [count]), ElementTokens(ms), |ms|);
    ElementsRead(src, order, Behind(order, p, [count]), ms, []);
    assert [] + VisitedList(ms) == VisitedList(ms);
  }

  lemma {:induction false} ElementsRead(
    src: Source, order: seq<Bytes>, p: Cursor, ms: seq<MsgVisit>, acc: seq<MSG>)
    requires Ahead(src, order, p, ElementTokens(ms))
    ensures p.pos <= |src.data|
    ensures ReadElements(src, p, |ms|, acc) == Done(acc + VisitedList(ms), Behind(order, p, ElementTokens(ms)))
    decreases ms, 2
  {
    if ms != [] {
      hide Ahead, Behind;
      var rest := ElementTokens(ms[1..]);
      AheadSplit(src, order, p, MsgTokens(ms[0]), rest);
      MsgRead(src, order, p, ms[0]);
      ElementsRead(src, order, Behind(order, p, MsgTokens(ms[0])), ms[1..], acc + [VisitedMsg(ms[0])]);
      assert acc + [VisitedMsg(ms[0])] + VisitedList(ms[1..]) == acc + VisitedList(ms);
    } else {
      assert acc + VisitedList(ms) == acc;
    }
  }

  // Stored structs, field by field in the order in which they are written.

  /** Takes token i of a list and leaves the cursor in front of token i + 1. */
  lemma {:induction false} TakeNext(
    src: Source, order: seq<Bytes>, p: Cursor, ts: seq<Token>, i: nat) returns (q: Cursor)
    requires i < |ts| && Ahead(src, order, p, ts[i..])
    ensures p.pos < q.pos <= |src.data| && q == Behind(order, p, [ts[i]])
    ensures Taken(src, order, p, ts[i])
    ensures Ahead(src, order, q, ts[i + 1..])
    ensures Behind(order, p, ts[i..]) == Behind(order, q, ts[i + 1..])
    ensures i + 1 == |ts| ==> Behind(order, p, ts[i..]) == q
  {
    hide Ahead, Taken, TokenBytes;
    assert ts[i..] == [ts[i]] + ts[i + 1..];
    Take(src, order, p, ts[i], ts[i + 1..]);
    q := Behind(order, p, [ts[i]]);
  }

  lemma {:induction false} AttributeRead(src: Source, order: seq<Bytes>, p: Cursor, a: Option<Attribute>)
    requires Ahead(src, order, p, AttributeTokens(a))
    ensures p.pos <= |src.data|
    ensures ReadAttribute(src, p) == Done(a, Behind(order, p, AttributeTokens(a)))
  {
    hide Ahead, Behind, ReadByte, ReadUvarint, ReadVarint, ReadString;
    var ts := AttributeTokens(a);
    assert ts[0..] == ts;
    var p0 := TakeNext(src, order, p, ts, 0);
    if a.Some? {
      var p1 := TakeNext(src, order, p0, ts, 1);
      var p2 := TakeNext(src, order, p1, ts, 2);
      var p3 := TakeNext(src, order, p2, ts, 3);
      var p4 := TakeNext(src, order, p3, ts, 4);
      var p5 := TakeNext(src, order, p4, ts, 5);
    }
  }

  lemma {:induction false} GuildAttributeRead(src: Source, order: seq<Bytes>, p: Cursor, a: Option<GuildAttribute>)
    requires Ahead(src, order, p, GuildAttributeTokens(a))
    ensures p.pos <= |src.data|
    ensures ReadGuildAttribute(src, p) == Done(a, Behind(order, p, GuildAttributeTokens(a)))
  {
    hide Ahead, Behind, ReadByte, ReadUvarint, ReadVarint, ReadString;
    var ts := GuildAttributeTokens(a);
    assert ts[0..] == ts;
    var p0 := TakeNext(src, order, p, ts, 0);
    if a.Some? {
      var p1 := TakeNext(src, order, p0, ts, 1);
      var p2 := TakeNext(src, order, p1, ts, 2);
      var p3 := TakeNext(src, order, p2, ts, 3);
      var p4 := TakeNext(src, order, p3, ts, 4);
      var p5 := TakeNext(src, order, p4, ts, 5);
    }
  }

  lemma {:induction false} QuotedRead(src: Source, order: seq<Bytes>, p: Cursor, q: Option<Quoted<ContentVisit>>)
    requires Ahead(src, order, p, QuotedTokens(q))
    ensures p.pos <= |src.data|
    ensures ReadQuoted(src, p) == Done(VisitedQuoted(q), Behind(order, p, QuotedTokens(q)))
  {
    hide Ahead, Behind, ReadByte, ReadUvarint, ReadVarint, ReadString, ReadArray, VisitedList, ArrayTokens;
    match q
    case None =>
      TakeOne(src, order, p, Coder(CODER_NIL));
    case Some(x) =>
      var head := [Coder(CODER_STRUCT), Text(x.prevId), Signed(x.prevGlobalId)];
      AheadSplit(src, order, p, head, ArrayTokens(x.content));
      assert head[0..] == head;
      var p0 := TakeNext(src, order, p, head, 0);
      var p1 := TakeNext(src, order, p0, head, 1);
      var p2 := TakeNext(src, order, p1, head, 2);
      ArrayRead(src, order, p2, x.content);
  }

  lemma {:induction false} GroupMessageRead(src: Source, order: seq<Bytes>, p: Cursor, m: GroupMessage<ContentVisit>)
    requires Ahead(src, order, p, GroupTokens(m))
    ensures p.pos <= |src.data|
    ensures ReadGroupMessage(src, p) == Done(Some(VisitedGroup(m)), Behind(order, p, GroupTokens(m)))
  {
    hide Ahead, Behind, ReadByte, ReadUvarint, ReadVarint, ReadString, ReadArray, ReadAttribute, ReadQuoted;
    hide VisitedList, VisitedQuoted, ArrayTokens, AttributeTokens, QuotedTokens;
    var head := [Coder(CODER_STRUCT), Text(m.id), Signed(m.globalId)];
    var tail := [Signed(m.groupCode), Text(m.anonymousId)];
    var front := head + AttributeTokens(m.attribute) + [Text(m.subType)] + QuotedTokens(m.quoted);
    AheadSplit(src, order, p, front + tail, ArrayTokens(m.content));
    AheadSplit(src, order, p, front, tail);
    var p5 := FrontRead(src, order, p, m.id, m.globalId, m.attribute, m.subType, m.quoted);
    assert tail[0..] == tail;
    var p6 := TakeNext(src, order, p5, tail, 0);
    var p7 := TakeNext(src, order, p6, tail, 1);
    ArrayRead(src, order, p7, m.content);
  }

  lemma {:induction false} PrivateMessageRead(
    src: Source, order: seq<Bytes>, p: Cursor, m: PrivateMessage<ContentVisit>)
    requires Ahead(src, order, p, PrivateTokens(m))
    ensures p.pos <= |src.data|
    ensures ReadPrivateMessage(src, p) == Done(Some(VisitedPrivate(m)), Behind(order, p, PrivateTokens(m)))
  {
    hide Ahead, Behind, ReadByte, ReadUvarint, ReadVarint, ReadString, ReadArray, ReadAttribute, ReadQuoted;
    hide VisitedList, VisitedQuoted, ArrayTokens, AttributeTokens, QuotedTokens;
    var head := [Coder(CODER_STRUCT), Text(m.id), Signed(m.globalId)];
    var tail := [Signed(m.sessionUin), Signed(m.targetUin)];
    var front := head + AttributeTokens(m.attribute) + [Text(m.subType)] + QuotedTokens(m.quoted);
    AheadSplit(src, order, p, front + tail, ArrayTokens(m.content));
    AheadSplit(src, order, p, front, tail);
    var p5 := FrontRead(src, order, p, m.id, m.globalId, m.attribute, m.subType, m.quoted);
    assert tail[0..] == tail;
    var p6 := TakeNext(src, order, p5, tail, 0);
    var p7 := TakeNext(src, order, p6, tail, 1);
    ArrayRead(src, order, p7, m.content);
  }

  /** The fields that group and private messages begin with; q is the cursor behind them. */
  lemma {:induction false} FrontRead(
    src: Source, order: seq<Bytes>, p: Cursor, id: Bytes, globalId: I32, attribute: Option<Attribute>,
                  subType: Bytes, quoted: Option<Quoted<ContentVisit>>) returns (q: Cursor)
    requires Ahead(src, order, p, [Coder(CODER_STRUCT), Text(id), Signed(globalId)] + AttributeTokens(attribute)
                                  + [Text(subType)] + QuotedTokens(quoted))
    ensures p.pos <= q.pos <= |src.data|
    ensures q == Behind(order, p, [Coder(CODER_STRUCT), Text(id), Signed(globalId)] + AttributeTokens(attribute)
                                  + [Text(subType)] + QuotedTokens(quoted))
    ensures
      && ReadByte(src, p).0 == CODER_STRUCT
      && var p0 := ReadByte(src, p).1;
      && p0.pos <= |src.data| && ReadString(src, p0).Done? && ReadString(src, p0).value == id
      && var p1 := ReadString(src, p0).next;
      && ReadVarint(src, p1).0 == globalId
      && var p2 := ReadVarint(src, p1).1;
      && ReadAttribute(src, p2).Done? && ReadAttribute(src, p2).value == attribute
      && var p3 := ReadAttribute(src, p2).next;
      && ReadString(src, p3).Done? && ReadString(src, p3).value == subType
      && var p4 := ReadString(src, p3).next;
      && ReadQuoted(src, p4) == Done(VisitedQuoted(quoted), q)
  {
    hide Ahead, Behind, ReadByte, ReadUvarint, ReadVarint, ReadString, ReadArray, ReadAttribute, ReadQuoted;
    hide VisitedList, VisitedQuoted, ArrayTokens, AttributeTokens, QuotedTokens;
    var head := [Coder(CODER_STRUCT), Text(id), Signed(globalId)];
    var at, qt := AttributeTokens(attribute), QuotedTokens(quoted);
    AheadSplit(src, order, p, head + at + [Text(subType)], qt);
    AheadSplit(src, order, p, head + at, [Text(subType)]);
    AheadSplit(src, order, p, head, at);
    assert head[0..] == head;
    var p0 := TakeNext(src, order, p, head, 0);
    var p1 := TakeNext(src, order, p0, head, 1);
    var p2 := TakeNext(src, order, p1, head, 2);
    AttributeRead(src, order, p2, attribute);
    var p3 := Behind(order, p2, at);
    TakeOne(src, order, p3, Text(subType));
    var p4 := Behind(order, p3, [Text(subType)]);
    QuotedRead(src, order, p4, quoted);
    q := Behind(order, p4, qt);
  }

  lemma {:induction false} GuildMessageRead(src: Source, order: seq<Bytes>, p: Cursor, m: GuildMessage<ContentVisit>)
    requires Ahead(src, order, p, GuildTokens(m))
    ensures p.pos <= |src.data|
    ensures ReadGuildMessage(src, p) == Done(Some(VisitedGuild(m)), Behind(order, p, GuildTokens(m)))
  {
    hide Ahead, Behind, ReadByte, ReadUvarint, ReadVarint, ReadString, ReadArray, ReadGuildAttribute, ReadQuoted;
    hide VisitedList, VisitedQuoted, ArrayTokens, GuildAttributeTokens, QuotedTokens;
    var head := [Coder(CODER_STRUCT), Text(m.id)];
    var mid := [Unsigned(m.guildId), Unsigned(m.channelId)];
    var at, qt := GuildAttributeTokens(m.attribute), QuotedTokens(m.quoted);
    AheadSplit(src, order, p, head + at + mid + qt, ArrayTokens(m.content));
    AheadSplit(src, order, p, head + at + mid, qt);
    AheadSplit(src, order, p, head + at, mid);
    AheadSplit(src, order, p, head, at);
    assert head[0..] == head && mid[0..] == mid;
    var p0 := TakeNext(src, order, p, head, 0);
    var p1 := TakeNext(src, order, p0, head, 1);
    GuildAttributeRead(src, order, p1, m.attribute);
    var p2 := Behind(order, p1, at);
    var p3 := TakeNext(src, order, p2, mid, 0);
    var p4 := TakeNext(src, order, p3, mid, 1);
    QuotedRead(src, order, p4, m.quoted);
    ArrayRead(src, order, Behind(order, p4, qt), m.content);
  }

  /** Where the five parts of a framed value stand. */
  lemma {:induction false} FrameParts(pool: Bytes, data: Bytes)
    ensures
      var h0, h1, h2 := |Leb(DATA_VERSION)|, |Leb(ToU64(|pool|))|, |Leb(ToU64(|data|))|;
      var value := Frame(pool, data);
      && At(value, 0, Leb(DATA_VERSION)) && At(value, h0, Leb(ToU64(|pool|))) && At(value, h0 + h1, Leb(ToU64(|data|)))
      && At(value, h0 + h1 + h2, pool) && At(value, h0 + h1 + h2 + |pool|, data)
      && |value| == h0 + h1 + h2 + |pool| + |data|
  {
    hide Leb;
    var value := Frame(pool, data);
    var h0, h1, h2 := Leb(DATA_VERSION), Leb(ToU64(|pool|)), Leb(ToU64(|data|));
    assert At(value, 0, h0 + h1 + h2 + pool + data);
    hide Frame, At;
    AtSplit(value, 0, h0 + h1 + h2 + pool, data);
    AtSplit(value, 0, h0 + h1 + h2, pool);
    AtSplit(value, 0, h0 + h1, h2);
    AtSplit(value, 0, h0, h1);
  }

  /** The three numbers of the frame, read back. */
  lemma {:induction false} FrameReads(pool: Bytes, data: Bytes)
    requires |Frame(pool, data)| < TWO_63
    ensures
      var value := Frame(pool, data);
      var p0, p1 := ReadLeb(value, 0, 0, 0), ReadLeb(value, ReadLeb(value, 0, 0, 0).1, 0, 0);
      && p0.0 == DATA_VERSION && p1.0 == |pool|
      && ReadLeb(value, p1.1, 0, 0).0 == |data|
      && var p2 := ReadLeb(value, p1.1, 0, 0).1;
      && At(value, p2, pool) && At(value, p2 + |pool|, data)
  {
    hide Leb, Frame, At, ReadLeb;
    FrameParts(pool, data);
    var value := Frame(pool, data);
    var h0, h1 := |Leb(DATA_VERSION)|, |Leb(ToU64(|pool|))|;
    ReadLebOfLeb(value, 0, DATA_VERSION);
    ReadLebOfLeb(value, h0, |pool|);
    ReadLebOfLeb(value, h0 + h1, |data|);
  }

  /** A framed value comes apart into the two segments it was made of. */
  lemma {:induction false} FrameOpened(ts: seq<Token>)
    requires |Encode(ts)| <= MAX_SLICE
    ensures Unframe(Encode(ts)) == Segments(Source(Pool(Order(ts)), Stream(ts, Order(ts))))
    ensures Ahead(Source(Pool(Order(ts)), Stream(ts, Order(ts))), Order(ts), START, ts)
  {
    hide Pool, Stream, Order, Leb, ReadLeb, Covers, Frame;
    var pool, data := Pool(Order(ts)), Stream(ts, Order(ts));
    FrameParts(pool, data);
    FrameReads(pool, data);
    assert data[0..|data|] == data;
    OrderInvariant(ts);
  }
}
