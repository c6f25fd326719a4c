/** Stored messages, the iteration schedules of their maps, and the tokens they are written as. */
module Message {
  import opened GoTypes
  import opened IndexStream

  const CODER_NIL: Byte := 0
  const CODER_INT: Byte := 1
  const CODER_UINT: Byte := 2
  const CODER_INT32: Byte := 3
  const CODER_UINT32: Byte := 4
  const CODER_INT64: Byte := 5
  const CODER_UINT64: Byte := 6
  const CODER_STRING: Byte := 7
  const CODER_MSG: Byte := 8
  const CODER_ARRAY_MSG: Byte := 9
  const CODER_STRUCT: Byte := 10

  /** Values without parts; int and uint are 64 bits wide. */
  datatype Scalar =
    | Nil
    | Int(i: I64) | Uint(u: U64)
    | Int32(i32: I32) | Uint32(u32: U32)
    | Int64(i64: I64) | Uint64(u64: U64)
    | String(s: Bytes)

  datatype Value = Leaf(scalar: Scalar) | Nested(msg: MSG) | List(msgs: seq<MSG>)

  datatype MSG = MSG(entries: map<Bytes, Value>)

  /** A value together with the order in which a run happens to visit each of its maps. */
  datatype Visit = LeafVisit(scalar: Scalar) | NestedVisit(msg: MsgVisit) | ListVisit(msgs: seq<MsgVisit>)

  datatype MsgVisit = MsgVisit(entries: seq<EntryVisit>)

  datatype EntryVisit = EntryVisit(key: Bytes, val: Visit)

  /** The value that a visit visits. */
  function Visited(v: Visit): Value {
    match v
    case LeafVisit(s) => Leaf(s)
    case NestedVisit(m) => Nested(VisitedMsg(m))
    case ListVisit(ms) => List(VisitedList(ms))
  }

  function VisitedMsg(m: MsgVisit): MSG {
    MSG(PutAll(map[], m.entries))
  }

  function PutAll(acc: map<Bytes, Value>, es: seq<EntryVisit>): map<Bytes, Value>
    decreases es
  {
    if es == [] then acc else PutAll(acc[es[0].key := Visited(es[0].val)], es[1..])
  }

  function VisitedList(ms: seq<MsgVisit>): (r: seq<MSG>)
    ensures |r| == |ms|
  {
    if ms == [] then [] else [VisitedMsg(ms[0])] + VisitedList(ms[1..])
  }

  // Stored structs, over the type C of their message content.

  datatype Attribute = Attribute(
    messageSeq: I32, internalId: I32, senderUin: I64, senderName: Bytes, timestamp: I64)

  datatype GuildAttribute = GuildAttribute(
    messageSeq: U64, internalId: U64, senderTinyId: U64, senderName: Bytes, timestamp: I64)

  datatype Quoted<C> = Quoted(prevId: Bytes, prevGlobalId: I32, content: C)

  datatype GroupMessage<C> = GroupMessage(
    id: Bytes, globalId: I32, attribute: Option<Attribute>, subType: Bytes,
    quoted: Option<Quoted<C>>, groupCode: I64, anonymousId: Bytes, content: C)

  datatype PrivateMessage<C> = PrivateMessage(
    id: Bytes, globalId: I32, attribute: Option<Attribute>, subType: Bytes,
    quoted: Option<Quoted<C>>, sessionUin: I64, targetUin: I64, content: C)

  datatype GuildMessage<C> = GuildMessage(
    id: Bytes, attribute: Option<GuildAttribute>, guildId: U64, channelId: U64,
    quoted: Option<Quoted<C>>, content: C)

  type Content = seq<MSG>
  type ContentVisit = seq<MsgVisit>

  function VisitedQuoted(q: Option<Quoted<ContentVisit>>): Option<Quoted<Content>> {
    match q
    case None => None
    case Some(x) => Some(Quoted(x.prevId, x.prevGlobalId, VisitedList(x.content)))
  }

  function VisitedGroup(m: GroupMessage<ContentVisit>): GroupMessage<Content> {
    GroupMessage(m.id, m.globalId, m.attribute, m.subType,
                 VisitedQuoted(m.quoted), m.groupCode, m.anonymousId, VisitedList(m.content))
  }

  function VisitedPrivate(m: PrivateMessage<ContentVisit>): PrivateMessage<Content> {
    PrivateMessage(m.id, m.globalId, m.attribute, m.subType,
                   VisitedQuoted(m.quoted), m.sessionUin, m.targetUin, VisitedList(m.content))
  }

  function VisitedGuild(m: GuildMessage<ContentVisit>): GuildMessage<Content> {
    GuildMessage(m.id, m.attribute, m.guildId, m.channelId, VisitedQuoted(m.quoted), VisitedList(m.content))
  }

  // Tokens.

  function ScalarTokens(s: Scalar): seq<Token> {
    match s
    case Nil => [Coder(CODER_NIL)]
    case Int(i) => [Coder(CODER_INT), Signed(i)]
    case Uint(u) => [Coder(CODER_UINT), Unsigned(u)]
    case Int32(i) => [Coder(CODER_INT32), Signed(i)]
    case Uint32(u) => [Coder(CODER_UINT32), Unsigned(u)]
    case Int64(i) => [Coder(CODER_INT64), Signed(i)]
    case Uint64(u) => [Coder(CODER_UINT64), Unsigned(u)]
    case String(t) => [Coder(CODER_STRING), Text(t)]
  }

  function Tokens(v: Visit): seq<Token>
    decreases v, 0
  {
    match v
    case LeafVisit(s) => ScalarTokens(s)
    case NestedVisit(m) => [Coder(CODER_MSG)] + MsgTokens(m)
    case ListVisit(ms) => [Coder(CODER_ARRAY_MSG)] + ArrayTokens(ms)
  }

  function MsgTokens(m: MsgVisit): seq<Token>
    decreases m, 1
  {
    [Unsigned(ToU64(|m.entries|))] + EntriesTokens(m.entries)
  }

  function EntriesTokens(es: seq<EntryVisit>): seq<Token>
    decreases es, 0
  {
    if es == [] then [] else [Text(es[0].key)] + Tokens(es[0].val) + EntriesTokens(es[1..])
  }

  function ArrayTokens(ms: seq<MsgVisit>): seq<Token>
    decreases ms, 3
  {
    [Unsigned(ToU64(|ms|))] + ElementTokens(ms)
  }

  function ElementTokens(ms: seq<MsgVisit>): seq<Token>
    decreases ms, 2
  {
    if ms == [] then [] else MsgTokens(ms[0]) + ElementTokens(ms[1..])
  }

  function AttributeTokens(a: Option<Attribute>): seq<Token> {
    match a
    case None => [Coder(CODER_NIL)]
    case Some(x) => [Coder(CODER_STRUCT), Signed(x.messageSeq), Signed(x.internalId),
                     Signed(x.senderUin), Text(x.senderName), Signed(x.timestamp)]
  }

  function GuildAttributeTokens(a: Option<GuildAttribute>): seq<Token> {
    match a
    case None => [Coder(CODER_NIL)]
    case Some(x) => [Coder(CODER_STRUCT), Unsigned(x.messageSeq), Unsigned(x.internalId),
                     Unsigned(x.senderTinyId), Text(x.senderName), Signed(x.timestamp)]
  }

  function QuotedTokens(q: Option<Quoted<ContentVisit>>): seq<Token> {
    match q
    case None => [Coder(CODER_NIL)]
    case Some(x) => [Coder(CODER_STRUCT), Text(x.prevId), Signed(x.prevGlobalId)] + ArrayTokens(x.content)
  }

  function GroupTokens(m: GroupMessage<ContentVisit>): seq<Token> {
    [Coder(CODER_STRUCT), Text(m.id), Signed(m.globalId)] + AttributeTokens(m.attribute)
    + [Text(m.subType)] + QuotedTokens(m.quoted)
    + [Signed(m.groupCode), Text(m.anonymousId)] + ArrayTokens(m.content)
  }

  function PrivateTokens(m: PrivateMessage<ContentVisit>): seq<Token> {
    [Coder(CODER_STRUCT), Text(m.id), Signed(m.globalId)] + AttributeTokens(m.attribute)
    + [Text(m.subType)] + QuotedTokens(m.quoted)
    + [Signed(m.sessionUin), Signed(m.targetUin)] + ArrayTokens(m.content)
  }

  function GuildTokens(m: GuildMessage<ContentVisit>): seq<Token> {
    [Coder(CODER_STRUCT), Text(m.id)] + GuildAttributeTokens(m.attribute)
    + [Unsigned(m.guildId), Unsigned(m.channelId)] + QuotedTokens(m.quoted) + ArrayTokens(m.content)
  }

  // Appending to a visit.

  lemma {:induction false} EntriesTokensConcat(a: seq<EntryVisit>, b: seq<EntryVisit>)
    ensures EntriesTokens(a + b) == EntriesTokens(a) + EntriesTokens(b)
  {
    if a == [] {
      assert a + b == b;
    } else {
      assert (a + b)[1..] == a[1..] + b;
      EntriesTokensConcat(a[1..], b);
    }
  }

  lemma {:induction false} ElementTokensConcat(a: seq<MsgVisit>, b: seq<MsgVisit>)
    ensures ElementTokens(a + b) == ElementTokens(a) + ElementTokens(b)
  {
    if a == [] {
      assert a + b == b;
    } else {
      assert (a + b)[1..] == a[1..] + b;
      ElementTokensConcat(a[1..], b);
    }
  }

  lemma {:induction false} PutAllConcat(acc: map<Bytes, Value>, a: seq<EntryVisit>, b: seq<EntryVisit>)
    ensures PutAll(acc, a + b) == PutAll(PutAll(acc, a), b)
    decreases a
  {
    if a == [] {
      assert a + b == b;
    } else {
      assert (a + b)[1..] == a[1..] + b;
      PutAllConcat(acc[a[0].key := Visited(a[0].val)], a[1..], b);
    }
  }

  lemma {:induction false} VisitedListConcat(a: seq<MsgVisit>, b: seq<MsgVisit>)
    ensures VisitedList(a + b) == VisitedList(a) + VisitedList(b)
  {
    if a == [] {
      assert a + b == b;
    } else {
      assert (a + b)[1..] == a[1..] + b;
      VisitedListConcat(a[1..], b);
    }
  }

  // Every order in which a map can be visited is covered.

  /** Any sequence of a map's keys, each once, is the key order of some visit of it. */
  lemma {:induction false} VisitInOrder(m: MSG, keys: seq<Bytes>) returns (v: MsgVisit)
    requires forall k :: k in m.entries <==> k in keys
    requires forall i, j :: 0 <= i < j < |keys| ==> keys[i] != keys[j]
    ensures VisitedMsg(v) == m
    ensures |v.entries| == |keys| && forall i :: 0 <= i < |keys| ==> v.entries[i].key == keys[i]
    decreases m, 1
  {
    var es: seq<EntryVisit> := [];
    for i := 0 to |keys|
      invariant |es| == i && forall j :: 0 <= j < i ==> es[j].key == keys[j]
      invariant PutAll(map[], es) == Chosen(m, keys[..i])
    {
      var k := keys[i];
      assert k in keys && k in m.entries;
      var e := VisitOf(m.entries[k]);
      var entry := EntryVisit(k, e);
      PutOne(map[], es, entry);
      hide *;
      assert keys[..i + 1] == keys[..i] + [k];
      ChosenMore(m, keys[..i], k);
      es := es + [entry];
    }
    v := MsgVisit(es);
    assert keys[..|keys|] == keys;
    assert Chosen(m, keys) == m.entries;
  }

  ghost function Chosen(m: MSG, keys: seq<Bytes>): map<Bytes, Value> {
    map k | k in m.entries && k in keys :: m.entries[k]
  }

  lemma {:induction false} ChosenMore(m: MSG, keys: seq<Bytes>, k: Bytes)
    requires k in m.entries
    ensures Chosen(m, keys + [k]) == Chosen(m, keys)[k := m.entries[k]]
  {
  }

  lemma {:induction false} PutOne(acc: map<Bytes, Value>, es: seq<EntryVisit>, e: EntryVisit)
    ensures PutAll(acc, es + [e]) == PutAll(acc, es)[e.key := Visited(e.val)]
  {
    PutAllConcat(acc, es, [e]);
    hide Visited;
    var before := PutAll(acc, es);
    assert PutAll(before, [e]) == PutAll(before[e.key := Visited(e.val)], [e][1..]);
  }

  /** Every value has a visit. */
  lemma {:induction false} VisitOf(o: Value) returns (v: Visit)
    ensures Visited(v) == o
    decreases o, 0
  {
    match o
    case Leaf(s) =>
      v := LeafVisit(s);
    case Nested(m) =>
      var keys := KeySequence(m.entries.Keys);
      var mv := VisitInOrder(m, keys);
      v := NestedVisit(mv);
    case List(ms) =>
      var vs: seq<MsgVisit> := [];
      for i := 0 to |ms|
        invariant VisitedList(vs) == ms[..i]
      {
        var keys := KeySequence(ms[i].entries.Keys);
        var mv := VisitInOrder(ms[i], keys);
        VisitedListConcat(vs, [mv]);
        vs := vs + [mv];
      }
      v := ListVisit(vs);
  }

  lemma {:induction false} KeySequence(s: set<Bytes>) returns (keys: seq<Bytes>)
    ensures forall k :: k in s <==> k in keys
    ensures forall i, j :: 0 <= i < j < |keys| ==> keys[i] != keys[j]
  {
    keys := [];
    var rest := s;
    while rest != {}
      invariant rest <= s && forall k :: k in s <==> k in rest || k in keys
      invariant forall k :: k in rest ==> k !in keys
      invariant forall i, j :: 0 <= i < j < |keys| ==> keys[i] != keys[j]
    {
      var k :| k in rest;
      keys := keys + [k];
      rest := rest - {k};
    }
  }
}
