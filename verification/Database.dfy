/** The message store: one key-value map for messages of all kinds, told apart by a flag. */
module Database {
  import opened GoTypes
  import opened Varint
  import opened IndexStream
  import opened StringPool
  import opened Message
  import opened Decode
  import opened RoundTrip
  import W = Writer
  import R = Reader

  const GROUP: U64 := 0
  const PRIVATE: U64 := 1
  const GUILD_CHANNEL: U64 := 2

  type Store = map<Bytes, Bytes>

  /** A stored message of either global-ID kind; None is a typed nil pointer. */
  datatype Stored = GroupStored(g: Option<GroupMessage<Content>>) | PrivateStored(p: Option<PrivateMessage<Content>>)

  datatype Failure = NotFound | InvalidVersion | Recovered | UnknownFlag | TypeMismatch

  /** What a getter returns. Nothing is a nil message with a nil error. */
  datatype Fetched<+T> = Found(value: T) | Nothing | Failed(reason: Failure)

  /** With a named error result the panic becomes an error. */
  function FromRead<T>(r: Read<T>): Fetched<T> {
    if r.Done? then Found(r.value) else Failed(Recovered)
  }

  function FetchMessage(kv: Store, key: Bytes): Fetched<Stored> {
    if key !in kv then Failed(NotFound)
    else if kv[key] == [] then Nothing
    else
      match Unframe(kv[key])
      case BadVersion(_) => Failed(InvalidVersion)
      case BadFrame => Failed(Recovered)
      case Segments(src) =>
        var (flag, p) := ReadUvarint(src, START);
        if flag == GROUP then
          match FromRead(ReadGroupMessage(src, p))
          case Found(m) => Found(GroupStored(m))
          case Nothing => Nothing
          case Failed(e) => Failed(e)
        else if flag == PRIVATE then
          match FromRead(ReadPrivateMessage(src, p))
          case Found(m) => Found(PrivateStored(m))
          case Nothing => Nothing
          case Failed(e) => Failed(e)
        else Failed(UnknownFlag)
  }

  /** A nil pointer of the right type passes the type assertion, an empty value does not. */
  function FetchGroup(kv: Store, key: Bytes): Fetched<GroupMessage<Content>> {
    match FetchMessage(kv, key)
    case Found(GroupStored(Some(m))) => Found(m)
    case Found(GroupStored(None)) => Nothing
    case Found(PrivateStored(_)) => Failed(TypeMismatch)
    case Nothing => Failed(TypeMismatch)
    case Failed(e) => Failed(e)
  }

  function FetchPrivate(kv: Store, key: Bytes): Fetched<PrivateMessage<Content>> {
    match FetchMessage(kv, key)
    case Found(PrivateStored(Some(m))) => Found(m)
    case Found(PrivateStored(None)) => Nothing
    case Found(GroupStored(_)) => Failed(TypeMismatch)
    case Nothing => Failed(TypeMismatch)
    case Failed(e) => Failed(e)
  }

  /** The error result has no name here, so a recovered panic leaves a nil message and a nil error. */
  function FetchGuild(kv: Store, key: Bytes): Fetched<GuildMessage<Content>> {
    if key !in kv then Failed(NotFound)
    else
      match Unframe(kv[key])
      case BadVersion(_) => Failed(InvalidVersion)
      case BadFrame => Nothing
      case Segments(src) =>
        var (flag, p) := ReadUvarint(src, START);
        if flag != GUILD_CHANNEL then Failed(UnknownFlag)
        else
          match ReadGuildMessage(src, p)
          case Done(Some(m), _) => Found(m)
          case _ => Nothing
  }

  /** One insertion: a message of some kind and the order in which its maps were visited. */
  datatype Insertion =
    | GroupIn(g: GroupMessage<ContentVisit>)
    | PrivateIn(p: PrivateMessage<ContentVisit>)
    | GuildIn(c: GuildMessage<ContentVisit>)

  /** The tokens an insertion writes. */
  function Log(ins: Insertion): seq<Token> {
    match ins
    case GroupIn(g) => [Unsigned(GROUP)] + GroupTokens(g)
    case PrivateIn(p) => [Unsigned(PRIVATE)] + PrivateTokens(p)
    case GuildIn(c) => [Unsigned(GUILD_CHANNEL)] + GuildTokens(c)
  }

  /** The value takes at most 2^45 bytes, so no list in it is longer than a slice can be. */
  predicate Storable(ins: Insertion) {
    |Encode(Log(ins))| <= MAX_SLICE
  }

  /** Global IDs are turned into keys by a function this model does not look into. */
  type KeyOf = I32 -> Bytes

  function KeyFor(key: KeyOf, ins: Insertion): Bytes {
    match ins
    case GroupIn(g) => key(g.globalId)
    case PrivateIn(p) => key(p.globalId)
    case GuildIn(c) => c.id
  }

  function Inserted(key: KeyOf, kv: Store, ins: Insertion): Store {
    kv[KeyFor(key, ins) := Encode(Log(ins))]
  }

  /** Under key k the store gives back the message inserted, and nothing under any other kind. */
  ghost predicate ReadsBack(kv: Store, k: Bytes, ins: Insertion) {
    match ins
    case GroupIn(g) =>
      && FetchMessage(kv, k) == Found(GroupStored(Some(VisitedGroup(g))))
      && FetchGroup(kv, k) == Found(VisitedGroup(g))
      && FetchPrivate(kv, k) == Failed(TypeMismatch)
      && FetchGuild(kv, k) == Failed(UnknownFlag)
    case PrivateIn(p) =>
      && FetchMessage(kv, k) == Found(PrivateStored(Some(VisitedPrivate(p))))
      && FetchPrivate(kv, k) == Found(VisitedPrivate(p))
      && FetchGroup(kv, k) == Failed(TypeMismatch)
      && FetchGuild(kv, k) == Failed(UnknownFlag)
    case GuildIn(c) =>
      && FetchGuild(kv, k) == Found(VisitedGuild(c))
      && FetchMessage(kv, k) == Failed(UnknownFlag)
      && FetchGroup(kv, k) == Failed(UnknownFlag)
      && FetchPrivate(kv, k) == Failed(UnknownFlag)
  }

  /** There is nothing under key k, and all getters say so. */
  ghost predicate Absent(kv: Store, k: Bytes) {
    && k !in kv
    && FetchMessage(kv, k) == Failed(NotFound) && FetchGuild(kv, k) == Failed(NotFound)
    && FetchGroup(kv, k) == Failed(NotFound) && FetchPrivate(kv, k) == Failed(NotFound)
  }

  /** Inserting and reading back, for every message and every order of visiting its maps. */
  lemma {:induction false} InsertThenFetch(kv: Store, k: Bytes, ins: Insertion)
    requires k in kv && kv[k] == Encode(Log(ins)) && Storable(ins)
    ensures ReadsBack(kv, k, ins)
  {
    hide Encode, Pool, Stream, Order, Ahead, Behind, ReadUvarint, Unframe;
    hide ReadGroupMessage, ReadPrivateMessage, ReadGuildMessage, GroupTokens, PrivateTokens, GuildTokens;
    hide VisitedGroup, VisitedPrivate, VisitedGuild;
    var ts := Log(ins);
    var order := Order(ts);
    var src := Source(Pool(order), Stream(ts, order));
    FrameOpened(ts);
    EncodeNotEmpty(ts);
    match ins
    case GroupIn(g) =>
      Take(src, order, START, Unsigned(GROUP), GroupTokens(g));
      GroupMessageRead(src, order, Behind(order, START, [Unsigned(GROUP)]), g);
    case PrivateIn(p) =>
      Take(src, order, START, Unsigned(PRIVATE), PrivateTokens(p));
      PrivateMessageRead(src, order, Behind(order, START, [Unsigned(PRIVATE)]), p);
    case GuildIn(c) =>
      Take(src, order, START, Unsigned(GUILD_CHANNEL), GuildTokens(c));
      GuildMessageRead(src, order, Behind(order, START, [Unsigned(GUILD_CHANNEL)]), c);
  }

  lemma {:induction false} EncodeNotEmpty(ts: seq<Token>)
    ensures Encode(ts) != []
  {
    hide Pool, Stream, Order;
  }

  /** The store after a run of insertions. */
  function Run(key: KeyOf, run: seq<Insertion>): Store {
    if run == [] then map[] else Inserted(key, Run(key, run[..|run| - 1]), run[|run| - 1])
  }

  /** The last insertion of the run that went to key k. */
  function LastFor(key: KeyOf, run: seq<Insertion>, k: Bytes): Option<Insertion> {
    if run == [] then None
    else if KeyFor(key, run[|run| - 1]) == k then Some(run[|run| - 1])
    else LastFor(key, run[..|run| - 1], k)
  }

  /** After any run of insertions every key reads back the last message that went to it, whatever the key function. */
  lemma {:induction false} LastInsertionWins(key: KeyOf, run: seq<Insertion>, k: Bytes)
    requires forall ins :: ins in run ==> Storable(ins)
    ensures match LastFor(key, run, k)
            case None => Absent(Run(key, run), k)
            case Some(ins) => ReadsBack(Run(key, run), k, ins)
  {
    hide ReadsBack, Storable, Encode, Log;
    if run != [] {
      var last := run[|run| - 1];
      if KeyFor(key, last) == k {
        assert last in run;
        StoredReadsBack(Run(key, run), k, last);
      } else {
        var front := run[..|run| - 1];
        LastInsertionWins(key, front, k);
        match LastFor(key, front, k)
        case None =>
        case Some(ins) => SameValueReadsSame(Run(key, front), Run(key, run), k, ins);
      }
    }
  }

  lemma {:induction false} StoredReadsBack(kv: Store, k: Bytes, ins: Insertion)
    requires Storable(ins) && k in kv && kv[k] == Encode(Log(ins))
    ensures ReadsBack(kv, k, ins)
  {
    hide ReadsBack;
    InsertThenFetch(kv, k, ins);
  }

  lemma {:induction false} SameValueReadsSame(a: Store, b: Store, k: Bytes, ins: Insertion)
    requires k in a <==> k in b
    requires k in a ==> a[k] == b[k]
    requires ReadsBack(a, k, ins)
    ensures ReadsBack(b, k, ins)
  {
    hide Unframe, ReadUvarint, ReadGroupMessage, ReadPrivateMessage, ReadGuildMessage;
    hide VisitedGroup, VisitedPrivate, VisitedGuild;
  }

  /** Not found means that there is nothing under the key, for all getters. */
  lemma {:induction false} NotFoundExactly(kv: Store, k: Bytes)
    ensures FetchMessage(kv, k) == Failed(NotFound) <==> k !in kv
    ensures FetchGroup(kv, k) == Failed(NotFound) <==> k !in kv
    ensures FetchPrivate(kv, k) == Failed(NotFound) <==> k !in kv
    ensures FetchGuild(kv, k) == Failed(NotFound) <==> k !in kv
  {
    hide Unframe, ReadUvarint, ReadGroupMessage, ReadPrivateMessage, ReadGuildMessage;
  }

  /** The other errors: a version other than 1, a flag other than the getter's, and panics. */
  lemma {:induction false} ErrorsExactly(kv: Store, k: Bytes)
    requires k in kv && kv[k] != []
    ensures
      var version := ReadLeb(kv[k], 0, 0, 0).0;
      && (FetchMessage(kv, k) == Failed(InvalidVersion) <==> version != 1)
      && (FetchGuild(kv, k) == Failed(InvalidVersion) <==> version != 1)
    ensures
      Unframe(kv[k]).Segments? ==>
        var src := Unframe(kv[k]).src;
        var (flag, p) := ReadUvarint(src, START);
        && (FetchMessage(kv, k) == Failed(UnknownFlag) <==> flag != 0 && flag != 1)
        && (FetchGuild(kv, k) == Failed(UnknownFlag) <==> flag != 2)
        && (FetchMessage(kv, k) == Failed(Recovered) <==>
              || (flag == 0 && ReadGroupMessage(src, p).Panic?)
              || (flag == 1 && ReadPrivateMessage(src, p).Panic?))
        && (FetchGroup(kv, k) == Failed(TypeMismatch) <==> FetchMessage(kv, k).Found? && flag == 1)
        && (FetchPrivate(kv, k) == Failed(TypeMismatch) <==> FetchMessage(kv, k).Found? && flag == 0)
    ensures Unframe(kv[k]).BadFrame? ==> FetchMessage(kv, k) == Failed(Recovered)
  {
    UnframeExactly(kv[k], Source([], []));
    hide Unframe, ReadLeb, ReadUvarint, ReadGroupMessage, ReadPrivateMessage, ReadGuildMessage;
  }

  /** An empty value is neither: no message and no error, but the wrong type for two of the getters. */
  lemma {:induction false} EmptyValue(kv: Store, k: Bytes)
    requires k in kv
    ensures FetchMessage(kv, k) == Nothing <==> kv[k] == []
    ensures kv[k] == [] ==> FetchGroup(kv, k) == Failed(TypeMismatch) && FetchPrivate(kv, k) == Failed(TypeMismatch)
    ensures kv[k] == [] ==> FetchGuild(kv, k) == Failed(InvalidVersion)
  {
    hide ReadUvarint, ReadGroupMessage, ReadPrivateMessage, ReadGuildMessage;
    UnframeExactly(kv[k], Source([], []));
    hide Unframe;
  }

  // No error means a message: true of what this program stores, not of every value.

  /** The struct in front of the cursor is marked as nil; a segment that ends there looks the same. */
  predicate NilStruct(src: Source, p: Cursor) {
    ReadByte(src, p).0 == CODER_NIL
  }

  /** The guild getter gives neither message nor error exactly where the reader panics or finds a nil struct. */
  lemma {:induction false} GuildNothingExactly(kv: Store, k: Bytes)
    ensures FetchGuild(kv, k) == Nothing <==>
            && k in kv
            && match Unframe(kv[k])
               case BadVersion(_) => false
               case BadFrame => true
               case Segments(src) =>
                 var (flag, p) := ReadUvarint(src, START);
                 flag == GUILD_CHANNEL && (NilStruct(src, p) || ReadGuildMessage(src, p).Panic?)
  {
    hide Unframe, ReadLeb, ReadString, ReadVarint, ReadGuildAttribute, ReadQuoted, ReadArray;
  }

  /** The other getters turn panics into errors; only a nil struct is left. */
  lemma {:induction false} GroupNothingExactly(kv: Store, k: Bytes)
    ensures FetchGroup(kv, k) == Nothing <==>
            && k in kv && kv[k] != [] && Unframe(kv[k]).Segments?
            && var (flag, p) := ReadUvarint(Unframe(kv[k]).src, START);
            flag == GROUP && NilStruct(Unframe(kv[k]).src, p)
  {
    hide Unframe, ReadLeb, ReadString, ReadVarint, ReadAttribute, ReadQuoted, ReadArray, ReadPrivateMessage;
  }

  lemma {:induction false} PrivateNothingExactly(kv: Store, k: Bytes)
    ensures FetchPrivate(kv, k) == Nothing <==>
            && k in kv && kv[k] != [] && Unframe(kv[k]).Segments?
            && var (flag, p) := ReadUvarint(Unframe(kv[k]).src, START);
            flag == PRIVATE && NilStruct(Unframe(kv[k]).src, p)
  {
    hide Unframe, ReadLeb, ReadString, ReadVarint, ReadAttribute, ReadQuoted, ReadArray, ReadGroupMessage;
  }

  /** A value whose pool is cut off: one getter reports the panic, the other one swallows it. */
  lemma {:induction false} PanicLooksLikeNothing(k: Bytes)
    ensures
      var kv: Store := map[k := [1, 5, 0]];
      Unframe(kv[k]).BadFrame? && FetchGuild(kv, k) == Nothing && FetchMessage(kv, k) == Failed(Recovered)
  {
    var value: Bytes := [1, 5, 0];
    assert ReadLeb(value, 0, 0, 0) == (1, 1) && ReadLeb(value, 1, 0, 0) == (5, 2) && ReadLeb(value, 2, 0, 0) == (0, 3);
  }

  /** Pool and index of a guild message whose content is said to have 2^62 elements. */
  function HugeCount(): Source {
    Source([0], [2, 10, 0, 0, 0, 0, 0] + Leb(0x4000_0000_0000_0000))
  }

  /** Making that list panics, and again only the guild getter hides it. */
  lemma {:induction false} HugeCountIsNothing(k: Bytes)
    ensures
      var src := HugeCount();
      var kv: Store := map[k := [1, 1, |src.data|] + src.pool + src.data];
      FetchGuild(kv, k) == Nothing
  {
    hide Leb;
    var src := HugeCount();
    LebAtMostTen(0x4000_0000_0000_0000);
    var value := [1, 1, |src.data|] + src.pool + src.data;
    hide ReadLeb;
    OneDigit(value, 0);
    OneDigit(value, 1);
    OneDigit(value, 2);
    assert value[3..4] == src.pool && value[4..4 + |src.data|] == src.data;
    HugeCountPanics(src);
    OneDigit(src.data, 0);
    hide ReadGuildMessage;
  }

  lemma {:induction false} OneDigit(d: Bytes, p: nat)
    requires p < |d| && d[p] < 128
    ensures ReadLeb(d, p, 0, 0) == (d[p], p + 1)
  {
  }

  lemma {:induction false} HugeCountPanics(src: Source)
    requires src == HugeCount()
    ensures ReadGuildMessage(src, START.(pos := 1)).Panic?
  {
    hide Leb, ReadLeb;
    var d := src.data;
    var count := Leb(0x4000_0000_0000_0000);
    assert d[7..] == count;
    assert At(d, 7, count);
    OneDigit(src.pool, 0);
    OneDigit(d, 2);
    OneDigit(d, 4);
    OneDigit(d, 5);
    ReadLebOfLeb(d, 7, 0x4000_0000_0000_0000);
    hide ReadElements;
    assert ReadString(src, START.(pos := 2)).Done?;
    assert ReadString(src, START.(pos := 2)).next.pos == 3;
  }

  /** After any run of insertions no getter leaves out both message and error. */
  lemma {:induction false} RunNeverNothing(key: KeyOf, run: seq<Insertion>, k: Bytes)
    requires forall ins :: ins in run ==> Storable(ins)
    ensures FetchMessage(Run(key, run), k) != Nothing
    ensures FetchGroup(Run(key, run), k) != Nothing
    ensures FetchPrivate(Run(key, run), k) != Nothing
    ensures FetchGuild(Run(key, run), k) != Nothing
  {
    hide Run, LastFor, Storable, Unframe, ReadUvarint;
    LastInsertionWins(key, run, k);
  }

  class Database {
    const key: KeyOf
    var kv: Store

    constructor (key: KeyOf)
      ensures this.key == key && kv == map[]
    {
      this.key := key;
      kv := map[];
    }

    method InsertGroupMessage(m: GroupMessage<Content>) returns (ghost v: GroupMessage<ContentVisit>)
      modifies this
      ensures VisitedGroup(v) == m
      ensures kv == Inserted(key, old(kv), GroupIn(v))
    {
      var w := new W.Writer();
      w.Uvarint(GROUP);
      v := w.WriteGroupMessage(m);
      assert w.log == Log(GroupIn(v));
      assert v.globalId == VisitedGroup(v).globalId;
      var out := w.Finish();
      kv := kv[key(m.globalId) := out];
    }

    method InsertPrivateMessage(m: PrivateMessage<Content>) returns (ghost v: PrivateMessage<ContentVisit>)
      modifies this
      ensures VisitedPrivate(v) == m
      ensures kv == Inserted(key, old(kv), PrivateIn(v))
    {
      var w := new W.Writer();
      w.Uvarint(PRIVATE);
      v := w.WritePrivateMessage(m);
      assert w.log == Log(PrivateIn(v));
      assert v.globalId == VisitedPrivate(v).globalId;
      var out := w.Finish();
      kv := kv[key(m.globalId) := out];
    }

    method InsertGuildChannelMessage(m: GuildMessage<Content>) returns (ghost v: GuildMessage<ContentVisit>)
      modifies this
      ensures VisitedGuild(v) == m
      ensures kv == Inserted(key, old(kv), GuildIn(v))
    {
      var w := new W.Writer();
      w.Uvarint(GUILD_CHANNEL);
      v := w.WriteGuildMessage(m);
      assert w.log == Log(GuildIn(v));
      assert v.id == VisitedGuild(v).id;
      var out := w.Finish();
      kv := kv[m.id := out];
    }

    method GetMessageByGlobalID(id: I32) returns (r: Fetched<Stored>)
      ensures r == FetchMessage(kv, key(id))
    {
      hide Unframe, ReadGroupMessage, ReadPrivateMessage, ReadUvarint;
      var k := key(id);
      if k !in kv {
        return Failed(NotFound);
      }
      if kv[k] == [] {
        return Nothing;
      }
      var frame, reader := R.NewReader(kv[k]);
      match frame
      case BadVersion(_) =>
        return Failed(InvalidVersion);
      case BadFrame =>
        return Failed(Recovered);
      case Segments(src) =>
        var flag := reader.Uvarint();
        if flag == GROUP {
          var ok, m := reader.ReadGroupMessage();
          return if ok then Found(GroupStored(m)) else Failed(Recovered);
        } else if flag == PRIVATE {
          var ok, m := reader.ReadPrivateMessage();
          return if ok then Found(PrivateStored(m)) else Failed(Recovered);
        } else {
          return Failed(UnknownFlag);
        }
    }

    method GetGroupMessageByGlobalID(id: I32) returns (r: Fetched<GroupMessage<Content>>)
      ensures r == FetchGroup(kv, key(id))
    {
      hide FetchMessage;
      var i := GetMessageByGlobalID(id);
      match i
      case Failed(e) => r := Failed(e);
      case Found(GroupStored(g)) => r := if g.Some? then Found(g.value) else Nothing;
      case _ => r := Failed(TypeMismatch);
    }

    method GetPrivateMessageByGlobalID(id: I32) returns (r: Fetched<PrivateMessage<Content>>)
      ensures r == FetchPrivate(kv, key(id))
    {
      hide FetchMessage;
      var i := GetMessageByGlobalID(id);
      match i
      case Failed(e) => r := Failed(e);
      case Found(PrivateStored(p)) => r := if p.Some? then Found(p.value) else Nothing;
      case _ => r := Failed(TypeMismatch);
    }

    method GetGuildChannelMessageByID(id: Bytes) returns (r: Fetched<GuildMessage<Content>>)
      ensures r == FetchGuild(kv, id)
    {
      hide Unframe, ReadGuildMessage, ReadUvarint;
      if id !in kv {
        return Failed(NotFound);
      }
      var frame, reader := R.NewReader(kv[id]);
      match frame
      case BadVersion(_) =>
        return Failed(InvalidVersion);
      case BadFrame =>
        return Nothing;
      case Segments(src) =>
        var flag := reader.Uvarint();
        if flag == GUILD_CHANNEL {
          var ok, m := reader.ReadGuildMessage();
          return if ok && m.Some? then Found(m.value) else Nothing;
        } else {
          return Failed(UnknownFlag);
        }
    }
  }
}
