/** The index writer: two growing segments and the index of strings already stored. */
module Writer {
  import opened GoTypes
  import opened Varint
  import opened StringPool
  import opened IndexStream
  import opened Message

  class IntWriter {
    var buf: Bytes

    constructor ()
      ensures buf == []
    {
      buf := [];
    }

    method WriteByte(b: Byte)
      modifies this
      ensures buf == old(buf) + [b]
    {
      buf := buf + [b];
    }

    method Uvarint(x: U64)
      modifies this
      ensures buf == old(buf) + Leb(x)
    {
      var rest := x;
      while rest >= 0x80
        invariant 0 <= rest < TWO_64
        invariant buf + Leb(rest) == old(buf) + Leb(x)
      {
        buf := buf + [rest % 0x80 + 0x80];
        rest := rest / 0x80;
      }
      buf := buf + [rest];
    }

    method Varint(x: I64)
      modifies this
      ensures buf == old(buf) + Leb(ZigZag(x))
    {
      Uvarint(ZigZag(x));
    }
  }

  class Writer {
    const data: IntWriter
    const strings: IntWriter
    var stringIndex: map<Bytes, U64>
    ghost var log: seq<Token>

    /** Both segments and the string index are determined by the tokens written so far. */
    ghost predicate Valid()
      reads this, data, strings
    {
      && data != strings
      && strings.buf == Pool(Order(log))
      && data.buf == Stream(log, Order(log))
      && (forall s :: s in stringIndex <==> s in Order(log))
      && (forall s :: s in stringIndex ==> stringIndex[s] == ToU64(Offset(Order(log), s)))
    }

    constructor ()
      ensures Valid() && fresh(data) && fresh(strings)
      ensures log == []
    {
      data := new IntWriter();
      strings := new IntWriter();
      stringIndex := map[];
      log := [];
    }

    /** Records a token whose effect on the two segments and the index is in place. */
    ghost method Record(t: Token)
      requires data != strings
      requires strings.buf == Pool(Order(log + [t]))
      requires data.buf == Stream(log, Order(log)) + TokenBytes(t, Order(log + [t]))
      requires forall s :: s in stringIndex <==> s in Order(log + [t])
      requires forall s :: s in stringIndex ==> stringIndex[s] == ToU64(Offset(Order(log + [t]), s))
      modifies this`log
      ensures Valid() && log == old(log) + [t]
    {
      hide TokenBytes, Pool, Offset;
      StreamAppend(log, t);
      log := log + [t];
    }

    method WriteCoder(c: Byte)
      requires Valid()
      modifies this, data
      ensures Valid() && log == old(log) + [Coder(c)]
    {
      data.WriteByte(c);
      StreamAppend(log, Coder(c));
      Record(Coder(c));
    }

    method Uvarint(x: U64)
      requires Valid()
      modifies this, data
      ensures Valid() && log == old(log) + [Unsigned(x)]
    {
      data.Uvarint(x);
      StreamAppend(log, Unsigned(x));
      Record(Unsigned(x));
    }

    method Varint(x: I64)
      requires Valid()
      modifies this, data
      ensures Valid() && log == old(log) + [Signed(x)]
    {
      data.Varint(x);
      StreamAppend(log, Signed(x));
      Record(Signed(x));
    }

    /** Stores the string unless it is stored already, and writes its offset. */
    method Str(s: Bytes)
      requires Valid()
      modifies this, data, strings
      ensures Valid() && log == old(log) + [Text(s)]
    {
      hide Pool, Offset, Stream, Order, Leb, ToU64;
      ghost var before, after := Order(log), Order(log + [Text(s)]);
      StreamAppend(log, Text(s));
      var off: U64;
      if s in stringIndex {
        off := stringIndex[s];
      } else {
        OrderInvariant(log + [Text(s)]);
        PoolOnlyGrows(before, after);
        SlotAdded(before, s);
        off := ToU64(|strings.buf|);
        strings.Uvarint(ToU64(|s|));
        strings.buf := strings.buf + s;
        stringIndex := stringIndex[s := off];
      }
      data.Uvarint(off);
      Record(Text(s));
    }

    /** Visits the map in whatever order the run happens to choose. */
    method Msg(m: MSG) returns (ghost v: MsgVisit)
      requires Valid()
      modifies this, data, strings
      ensures Valid() && VisitedMsg(v) == m && |v.entries| == |m.entries|
      ensures log == old(log) + MsgTokens(v)
      decreases m, 1
    {
      hide Valid, Tokens, Visited;
      Uvarint(ToU64(|m.entries|));
      ghost var es: seq<EntryVisit> := [];
      var rest := m.entries.Keys;
      while rest != {}
        invariant Valid() && rest <= m.entries.Keys
        invariant PutAll(map[], es) == map k | k in m.entries.Keys - rest :: m.entries[k]
        invariant |es| + |rest| == |m.entries|
        invariant log == old(log) + [Unsigned(ToU64(|m.entries|))] + EntriesTokens(es)
      {
        var k :| k in rest;
        Str(k);
        ghost var e := Obj(m.entries[k]);
        ghost var entry := EntryVisit(k, e);
        EntriesTokensConcat(es, [entry]);
        PutAllConcat(map[], es, [entry]);
        assert EntriesTokens([entry]) == [Text(k)] + Tokens(e);
        assert PutAll(PutAll(map[], es), [entry]) == PutAll(map[], es)[k := m.entries[k]];
        es := es + [entry];
        rest := rest - {k};
      }
      v := MsgVisit(es);
    }

    method ArrayMsg(ms: seq<MSG>) returns (ghost v: seq<MsgVisit>)
      requires Valid()
      modifies this, data, strings
      ensures Valid() && VisitedList(v) == ms
      ensures log == old(log) + ArrayTokens(v)
      decreases ms, 2
    {
      hide Valid, MsgTokens, VisitedMsg;
      Uvarint(ToU64(|ms|));
      v := [];
      for i := 0 to |ms|
        invariant Valid() && |v| == i && VisitedList(v) == ms[..i]
        invariant log == old(log) + [Unsigned(ToU64(|ms|))] + ElementTokens(v)
      {
        ghost var e := Msg(ms[i]);
        ElementTokensConcat(v, [e]);
        VisitedListConcat(v, [e]);
        assert ElementTokens([e]) == MsgTokens(e);
        v := v + [e];
      }
    }

    method Obj(o: Value) returns (ghost v: Visit)
      requires Valid()
      modifies this, data, strings
      ensures Valid() && Visited(v) == o
      ensures log == old(log) + Tokens(v)
      decreases o, 0
    {
      hide Valid, MsgTokens, ArrayTokens, VisitedMsg, VisitedList, ScalarTokens;
      match o
      case Leaf(s) =>
        ScalarObj(s);
        v := LeafVisit(s);
      case Nested(m) =>
        WriteCoder(CODER_MSG);
        ghost var mv := Msg(m);
        v := NestedVisit(mv);
      case List(ms) =>
        WriteCoder(CODER_ARRAY_MSG);
        ghost var lv := ArrayMsg(ms);
        v := ListVisit(lv);
    }

    method ScalarObj(s: Scalar)
      requires Valid()
      modifies this, data, strings
      ensures Valid() && log == old(log) + ScalarTokens(s)
    {
      hide Valid;
      match s
      case Nil =>
        WriteCoder(CODER_NIL);
      case Int(i) =>
        WriteCoder(CODER_INT);
        Varint(i);
      case Uint(u) =>
        WriteCoder(CODER_UINT);
        Uvarint(u);
      case Int32(i) =>
        WriteCoder(CODER_INT32);
        Varint(i);
      case Uint32(u) =>
        WriteCoder(CODER_UINT32);
        Uvarint(u);
      case Int64(i) =>
        WriteCoder(CODER_INT64);
        Varint(i);
      case Uint64(u) =>
        WriteCoder(CODER_UINT64);
        Uvarint(u);
      case String(t) =>
        WriteCoder(CODER_STRING);
        Str(t);
    }

    method WriteAttribute(a: Option<Attribute>)
      requires Valid()
      modifies this, data, strings
      ensures Valid() && log == old(log) + AttributeTokens(a)
    {
      hide Valid;
      match a
      case None =>
        WriteCoder(CODER_NIL);
      case Some(x) =>
        WriteCoder(CODER_STRUCT);
        Varint(x.messageSeq);
        Varint(x.internalId);
        Varint(x.senderUin);
        Str(x.senderName);
        Varint(x.timestamp);
    }

    method WriteGuildAttribute(a: Option<GuildAttribute>)
      requires Valid()
      modifies this, data, strings
      ensures Valid() && log == old(log) + GuildAttributeTokens(a)
    {
      hide Valid;
      match a
      case None =>
        WriteCoder(CODER_NIL);
      case Some(x) =>
        WriteCoder(CODER_STRUCT);
        Uvarint(x.messageSeq);
        Uvarint(x.internalId);
        Uvarint(x.senderTinyId);
        Str(x.senderName);
        Varint(x.timestamp);
    }

    method WriteQuoted(q: Option<Quoted<Content>>) returns (ghost v: Option<Quoted<ContentVisit>>)
      requires Valid()
      modifies this, data, strings
      ensures Valid() && VisitedQuoted(v) == q
      ensures log == old(log) + QuotedTokens(v)
    {
      hide Valid;
      match q
      case None =>
        WriteCoder(CODER_NIL);
        v := None;
      case Some(x) =>
        WriteCoder(CODER_STRUCT);
        Str(x.prevId);
        Varint(x.prevGlobalId);
        ghost var c := ArrayMsg(x.content);
        v := Some(Quoted(x.prevId, x.prevGlobalId, c));
    }

    method WriteGroupMessage(m: GroupMessage<Content>) returns (ghost v: GroupMessage<ContentVisit>)
      requires Valid()
      modifies this, data, strings
      ensures Valid() && VisitedGroup(v) == m
      ensures log == old(log) + GroupTokens(v)
    {
      hide Valid, VisitedQuoted, VisitedList, AttributeTokens, GuildAttributeTokens, QuotedTokens, ArrayTokens;
      WriteCoder(CODER_STRUCT);
      Str(m.id);
      Varint(m.globalId);
      WriteAttribute(m.attribute);
      Str(m.subType);
      ghost var q := WriteQuoted(m.quoted);
      Varint(m.groupCode);
      Str(m.anonymousId);
      ghost var c := ArrayMsg(m.content);
      v := GroupMessage(m.id, m.globalId, m.attribute, m.subType, q, m.groupCode, m.anonymousId, c);
    }

    method WritePrivateMessage(m: PrivateMessage<Content>) returns (ghost v: PrivateMessage<ContentVisit>)
      requires Valid()
      modifies this, data, strings
      ensures Valid() && VisitedPrivate(v) == m
      ensures log == old(log) + PrivateTokens(v)
    {
      hide Valid, VisitedQuoted, VisitedList, AttributeTokens, GuildAttributeTokens, QuotedTokens, ArrayTokens;
      WriteCoder(CODER_STRUCT);
      Str(m.id);
      Varint(m.globalId);
      WriteAttribute(m.attribute);
      Str(m.subType);
      ghost var q := WriteQuoted(m.quoted);
      Varint(m.sessionUin);
      Varint(m.targetUin);
      ghost var c := ArrayMsg(m.content);
      v := PrivateMessage(m.id, m.globalId, m.attribute, m.subType, q, m.sessionUin, m.targetUin, c);
    }

    method WriteGuildMessage(m: GuildMessage<Content>) returns (ghost v: GuildMessage<ContentVisit>)
      requires Valid()
      modifies this, data, strings
      ensures Valid() && VisitedGuild(v) == m
      ensures log == old(log) + GuildTokens(v)
    {
      hide Valid, VisitedQuoted, VisitedList, AttributeTokens, GuildAttributeTokens, QuotedTokens, ArrayTokens;
      WriteCoder(CODER_STRUCT);
      Str(m.id);
      WriteGuildAttribute(m.attribute);
      Uvarint(m.guildId);
      Uvarint(m.channelId);
      ghost var q := WriteQuoted(m.quoted);
      ghost var c := ArrayMsg(m.content);
      v := GuildMessage(m.id, m.attribute, m.guildId, m.channelId, q, c);
    }

    /** The framed value. WriteTo drains both segments into the output. */
    method Finish() returns (out: Bytes)
      requires Valid()
      modifies this, data, strings
      ensures out == Encode(old(log))
    {
      hide Pool, Stream, Order, Leb, Offset;
      var buf := new IntWriter();
      buf.Uvarint(DATA_VERSION);
      buf.Uvarint(ToU64(|strings.buf|));
      buf.Uvarint(ToU64(|data.buf|));
      buf.buf := buf.buf + strings.buf;
      strings.buf := [];
      buf.buf := buf.buf + data.buf;
      data.buf := [];
      out := buf.buf;
    }
  }
}
