/** The index reader: two cursors and a cache from pool offsets to strings. */
module Reader {
  import opened GoTypes
  import opened Varint
  import opened IndexStream
  import opened Message
  import D = Decode

  class IntReader {
    const data: Bytes
    var pos: nat

    constructor (data: Bytes)
      ensures this.data == data && pos == 0
    {
      this.data := data;
      pos := 0;
    }

    /** 0 at the end of the data; the error is dropped by every caller. */
    method ReadByte() returns (b: Byte)
      modifies this
      ensures old(pos) < |data| ==> b == data[old(pos)] && pos == old(pos) + 1
      ensures old(pos) >= |data| ==> b == 0 && pos == old(pos)
    {
      if pos < |data| {
        b := data[pos];
        pos := pos + 1;
      } else {
        b := 0;
      }
    }

    /** The loop of binary.ReadUvarint with its error dropped. */
    method Uvarint() returns (x: U64)
      modifies this
      ensures (x, pos) == ReadLeb(data, old(pos), 0, 0)
    {
      hide Shl7, ToU64;
      x := 0;
      var i := 0;
      while i < 10
        invariant 0 <= i <= 10 && (pos <= |data| || i == 0)
        invariant ReadLeb(data, pos, i, x) == ReadLeb(data, old(pos), 0, 0)
      {
        if pos >= |data| {
          return;
        }
        var b := ReadByte();
        if b < 0x80 {
          if i == 9 && b > 1 {
            return;
          }
          x := ToU64(x + Shl7(b, i));
          return;
        }
        x := ToU64(x + Shl7(b % 128, i));
        i := i + 1;
      }
    }

    method Varint() returns (x: I64)
      modifies this
      ensures ReadLeb(data, old(pos), 0, 0).1 == pos
      ensures x == UnZigZag(ReadLeb(data, old(pos), 0, 0).0)
    {
      var u := Uvarint();
      x := UnZigZag(u);
    }
  }

  /** The same read done anew every time. */
  function UncachedRead(pool: Bytes, cursor: nat, off: U64): (Option<Bytes>, nat) {
    var from := D.SeekTo(off, cursor);
    (D.StringAt(pool, from), ReadLeb(pool, from, 0, 0).1)
  }

  /** The state after a run of reads that did not panic. */
  function CachedRun(pool: Bytes, offs: seq<U64>): D.Pooled {
    if offs == [] then D.Pooled(0, map[])
    else D.CachedRead(pool, CachedRun(pool, offs[..|offs| - 1]), offs[|offs| - 1]).1
  }

  function UncachedRun(pool: Bytes, offs: seq<U64>): nat {
    if offs == [] then 0
    else UncachedRead(pool, UncachedRun(pool, offs[..|offs| - 1]), offs[|offs| - 1]).1
  }

  lemma {:induction false} CacheStaysFaithful(pool: Bytes, offs: seq<U64>)
    ensures D.CacheFaithful(pool, CachedRun(pool, offs).cache)
  {
    hide D.CachedRead;
    if offs != [] {
      CacheStaysFaithful(pool, offs[..|offs| - 1]);
      D.ReadStaysFaithful(pool, CachedRun(pool, offs[..|offs| - 1]), offs[|offs| - 1]);
    }
  }

  /** After every run of reads, on every pool, the cache makes no difference to a read of `off`. */
  ghost predicate CacheInvisible(off: U64) {
    forall pool: Bytes, offs: seq<U64> ::
      D.CachedRead(pool, CachedRun(pool, offs), off).0 == UncachedRead(pool, UncachedRun(pool, offs), off).0
  }

  /** A hit leaves the pool cursor where it is, and only a failing seek can tell. */
  lemma {:induction false} CacheRefinesDirectReads(off: U64)
    ensures CacheInvisible(off) <==> off < TWO_63
  {
    if off < TWO_63 {
      forall pool: Bytes, offs: seq<U64>
        ensures D.CachedRead(pool, CachedRun(pool, offs), off).0 == UncachedRead(pool, UncachedRun(pool, offs), off).0
      {
        CacheStaysFaithful(pool, offs);
      }
    } else {
      CacheShowsAfterFailedSeek(off);
    }
  }

  /** Reading 0, 1 and 0 again leaves the cached reader behind the length at 1, the other one behind that at 0. */
  lemma {:induction false} CacheShowsAfterFailedSeek(off: U64)
    requires off >= TWO_63
    ensures
      var pool: Bytes := [0, 0, 1, 65];
      D.CachedRead(pool, CachedRun(pool, [0, 1, 0]), off).0 != UncachedRead(pool, UncachedRun(pool, [0, 1, 0]), off).0
  {
    var pool: Bytes := [0, 0, 1, 65];
    ShowingPool();
    hide ReadLeb, D.StringAt;
    var o1, o2, o3: seq<U64> := [0], [0, 1], [0, 1, 0];
    assert o1[..0] == [] && o2[..1] == o1 && o3[..2] == o2;
    assert CachedRun(pool, o1) == D.Pooled(1, map[0 := []]) && UncachedRun(pool, o1) == 1;
    assert CachedRun(pool, o2) == D.Pooled(2, map[0 := [], 1 := []]) && UncachedRun(pool, o2) == 2;
    assert CachedRun(pool, o3) == CachedRun(pool, o2) && UncachedRun(pool, o3) == 1;
  }

  lemma {:induction false} ShowingPool()
    ensures
      var pool: Bytes := [0, 0, 1, 65];
      && ReadLeb(pool, 0, 0, 0) == (0, 1) && ReadLeb(pool, 1, 0, 0) == (0, 2) && ReadLeb(pool, 2, 0, 0) == (1, 3)
      && D.StringAt(pool, 0) == Some([]) && D.StringAt(pool, 1) == Some([]) && D.StringAt(pool, 2) == Some([65])
  {
    var pool: Bytes := [0, 0, 1, 65];
    assert pool[1..1] == [] && pool[2..2] == [] && pool[3..4] == [65];
  }

  class Reader {
    const data: IntReader
    const strings: IntReader
    var stringIndex: map<U64, Bytes>

    ghost predicate Valid()
      reads this, data, strings
    {
      data != strings && data.pos <= |data.data| && D.CacheFaithful(strings.data, stringIndex)
    }

    ghost function Src(): D.Source {
      D.Source(strings.data, data.data)
    }

    ghost function Cur(): D.Cursor
      reads this, data, strings
    {
      D.Cursor(data.pos, D.Cached(D.Pooled(strings.pos, stringIndex)))
    }

    /** The same place without the cache. */
    ghost function Bare(): D.Cursor
      reads data
    {
      D.Cursor(data.pos, D.Direct)
    }

    /** A method did what was decoded: both panic, or both return v and leave the reader in the same state. */
    ghost predicate Does<T>(decoded: D.Read<T>, ok: bool, v: T)
      reads this, data, strings
    {
      match decoded
      case Done(w, q) => ok && v == w && q == Cur()
      case Panic => !ok
      case BadSeek => false
    }

    /** Direct lookups say the same, unless they meet an offset of 2^63 or more. */
    ghost predicate Agrees<T>(decoded: D.Read<T>, ok: bool, v: T)
      reads data
    {
      match decoded
      case Done(w, q) => ok && v == w && q == Bare()
      case Panic => !ok
      case BadSeek => true
    }

    lemma {:induction false} InBounds()
      requires Valid()
      ensures data.pos <= |data.data|
    {
    }

    constructor (src: D.Source)
      ensures Valid() && fresh(data) && fresh(strings)
      ensures Src() == src && Cur() == D.START
    {
      data := new IntReader(src.data);
      strings := new IntReader(src.pool);
      stringIndex := map[];
    }

    method ReadCoder() returns (c: Byte)
      requires Valid()
      modifies data
      ensures Valid() && old(data.pos) <= data.pos
      ensures (c, Cur()) == D.ReadByte(Src(), old(Cur()))
      ensures (c, Bare()) == D.ReadByte(Src(), old(Bare()))
    {
      c := data.ReadByte();
    }

    method Uvarint() returns (x: U64)
      requires Valid()
      modifies data
      ensures Valid() && old(data.pos) <= data.pos
      ensures (x, Cur()) == D.ReadUvarint(Src(), old(Cur()))
      ensures (x, Bare()) == D.ReadUvarint(Src(), old(Bare()))
    {
      x := data.Uvarint();
    }

    method Varint() returns (x: I64)
      requires Valid()
      modifies data
      ensures Valid() && old(data.pos) <= data.pos
      ensures (x, Cur()) == D.ReadVarint(Src(), old(Cur()))
      ensures (x, Bare()) == D.ReadVarint(Src(), old(Bare()))
    {
      x := data.Varint();
    }

    method Str() returns (ok: bool, s: Bytes)
      requires Valid()
      modifies this, data, strings
      ensures Valid() && old(data.pos) <= data.pos
      ensures Does(D.ReadString(Src(), old(Cur())), ok, s)
      ensures Agrees(D.ReadString(Src(), old(Bare())), ok, s)
    {
      hide ReadLeb;
      var off := data.Uvarint();
      if off in stringIndex {
        return true, stringIndex[off];
      }
      if off < TWO_63 {
        strings.pos := off;
      }
      var l := strings.Uvarint();
      var whence := strings.pos;
      if l < TWO_63 && whence + l <= |strings.data| {
        s := strings.data[whence..whence + l];
        stringIndex := stringIndex[off := s];
        ok := true;
      } else {
        ok, s := false, [];
      }
    }

    /** What is left to read decides what was to be read before; a panic decides it at once. */
    ghost predicate Continues<T>(before: D.Read<T>, left: D.Read<T>, ok: bool) {
      before.BadSeek? || if ok then before == left else before.Panic?
    }

    /** One turn of the loop in Msg, with n more to come. */
    method Entry(ghost n: nat, msg: map<Bytes, Value>) returns (ok: bool, msg': map<Bytes, Value>)
      requires Valid()
      modifies this, data, strings
      ensures Valid() && old(data.pos) <= data.pos
      ensures
        && Continues(D.ReadEntries(Src(), old(Cur()), n + 1, msg), D.ReadEntries(Src(), Cur(), n, msg'), ok)
        && Continues(D.ReadEntries(Src(), old(Bare()), n + 1, msg), D.ReadEntries(Src(), Bare(), n, msg'), ok)
      decreases |data.data| - data.pos, 1
    {
      hide Valid, D.ReadString, D.ReadObj, D.ReadEntries, D.CachedRead, D.ReadUvarint;
      ghost var src, p, p' := Src(), Cur(), Bare();
      InBounds();
      D.EntriesFail(src, p, n + 1, msg);
      D.EntriesFail(src, p', n + 1, msg);
      msg' := msg;
      var s, v;
      ok, s := Str();
      if !ok {
        return;
      }
      ghost var q, q' := Cur(), Bare();
      ok, v := Obj();
      if !ok {
        return;
      }
      D.EntriesStep(src, p, n, msg, s, q, v, Cur());
      if D.ReadString(src, p').Done? && D.ReadObj(src, q').Done? {
        D.EntriesStep(src, p', n, msg, s, q', v, Bare());
      }
      msg' := msg[s := v];
    }

    method Msg() returns (ok: bool, m: MSG)
      requires Valid()
      modifies this, data, strings
      ensures Valid() && old(data.pos) <= data.pos
      ensures Does(D.ReadMsg(Src(), old(Cur())), ok, m)
      ensures Agrees(D.ReadMsg(Src(), old(Bare())), ok, m)
      decreases |data.data| - data.pos, 2
    {
      hide Valid, D.ReadUvarint, D.ReadString, D.ReadObj;
      var length := Uvarint();
      InBounds();
      var msg: map<Bytes, Value> := map[];
      var i := 0;
      ghost var all, all' := D.ReadEntries(Src(), Cur(), length, map[]), D.ReadEntries(Src(), Bare(), length, map[]);
      label Start:
      while i < length
        invariant Valid() && old@Start(data.pos) <= data.pos <= |data.data| && 0 <= i <= length
        invariant Continues(all, D.ReadEntries(Src(), Cur(), length - i, msg), true)
        invariant Continues(all', D.ReadEntries(Src(), Bare(), length - i, msg), true)
      {
        hide *;
        var ok;
        ok, msg := Entry(length - i - 1, msg);
        if !ok {
          return false, MSG(map[]);
        }
        InBounds();
        i := i + 1;
      }
      return true, MSG(msg);
    }

    /** One turn of the loop in ArrayMsg, with n more to come. */
    method OneMore(ghost n: nat, msgs: seq<MSG>) returns (ok: bool, msgs': seq<MSG>)
      requires Valid()
      modifies this, data, strings
      ensures Valid() && old(data.pos) <= data.pos <= |data.data|
      ensures
        && Continues(D.ReadElements(Src(), old(Cur()), n + 1, msgs), D.ReadElements(Src(), Cur(), n, msgs'), ok)
        && Continues(D.ReadElements(Src(), old(Bare()), n + 1, msgs), D.ReadElements(Src(), Bare(), n, msgs'), ok)
      decreases |data.data| - data.pos, 3
    {
      hide Valid, D.ReadMsg;
      InBounds();
      D.ElementsStep(Src(), Cur(), n, msgs);
      D.ElementsStep(Src(), Bare(), n, msgs);
      hide D.ReadElements;
      var m;
      ok, m := Msg();
      InBounds();
      msgs' := msgs + [m];
    }

    method ArrayMsg() returns (ok: bool, msgs: seq<MSG>)
      requires Valid()
      modifies this, data, strings
      ensures Valid() && old(data.pos) <= data.pos
      ensures Does(D.ReadArray(Src(), old(Cur())), ok, msgs)
      ensures Agrees(D.ReadArray(Src(), old(Bare())), ok, msgs)
      decreases |data.data| - data.pos, 4
    {
      var length := Uvarint();
      msgs := [];
      InBounds();
      if length > D.MAX_SLICE {
        return false, [];
      }
      var i := 0;
      ghost var all, all' := D.ReadElements(Src(), Cur(), length, []), D.ReadElements(Src(), Bare(), length, []);
      label Start:
      while i < length
        invariant Valid() && old@Start(data.pos) <= data.pos <= |data.data| && 0 <= i <= length
        invariant Continues(all, D.ReadElements(Src(), Cur(), length - i, msgs), true)
        invariant Continues(all', D.ReadElements(Src(), Bare(), length - i, msgs), true)
      {
        hide *;
        InBounds();
        var eok;
        eok, msgs := OneMore(length - i - 1, msgs);
        if !eok {
          return false, [];
        }
        i := i + 1;
      }
      ok := true;
    }

    method Obj() returns (ok: bool, v: Value)
      requires Valid()
      modifies this, data, strings
      ensures Valid() && old(data.pos) <= data.pos
      ensures Does(D.ReadObj(Src(), old(Cur())), ok, v)
      ensures Agrees(D.ReadObj(Src(), old(Bare())), ok, v)
      decreases |data.data| - data.pos, 0
    {
      var c := ReadCoder();
      if c == CODER_MSG {
        var mok, m := Msg();
        return mok, Nested(m);
      } else if c == CODER_ARRAY_MSG {
        var aok, ms := ArrayMsg();
        return aok, List(ms);
      } else {
        var sok, s := ScalarObj(c);
        return sok, Leaf(s);
      }
    }

    method ScalarObj(c: Byte) returns (ok: bool, s: Scalar)
      requires Valid()
      modifies this, data, strings
      ensures Valid() && old(data.pos) <= data.pos
      ensures Does(D.ReadScalar(Src(), c, old(Cur())), ok, s)
      ensures Agrees(D.ReadScalar(Src(), c, old(Bare())), ok, s)
    {
      hide Valid;
      ok := true;
      if c == CODER_NIL {
        s := Nil;
      } else if c == CODER_INT {
        var i := Varint();
        s := Int(i);
      } else if c == CODER_UINT {
        var u := Uvarint();
        s := Uint(u);
      } else if c == CODER_INT32 {
        var i := Varint();
        s := Int32(ToI32(i));
      } else if c == CODER_UINT32 {
        var u := Uvarint();
        s := Uint32(u % TWO_32);
      } else if c == CODER_INT64 {
        var i := Varint();
        s := Int64(i);
      } else if c == CODER_UINT64 {
        var u := Uvarint();
        s := Uint64(u);
      } else if c == CODER_STRING {
        var t;
        ok, t := Str();
        s := String(t);
      } else {
        ok, s := false, Nil;
      }
    }

    method ReadAttribute() returns (ok: bool, a: Option<Attribute>)
      requires Valid()
      modifies this, data, strings
      ensures Valid() && old(data.pos) <= data.pos
      ensures Does(D.ReadAttribute(Src(), old(Cur())), ok, a)
      ensures Agrees(D.ReadAttribute(Src(), old(Bare())), ok, a)
    {
      hide Valid;
      ok, a := true, None;
      var c := ReadCoder();
      if c == CODER_NIL {
        return;
      }
      var messageSeq := Varint();
      var internalId := Varint();
      var senderUin := Varint();
      var senderName;
      ok, senderName := Str();
      if ok {
        var timestamp := Varint();
        a := Some(Attribute(ToI32(messageSeq), ToI32(internalId), senderUin, senderName, timestamp));
      }
    }

    method ReadGuildAttribute() returns (ok: bool, a: Option<GuildAttribute>)
      requires Valid()
      modifies this, data, strings
      ensures Valid() && old(data.pos) <= data.pos
      ensures Does(D.ReadGuildAttribute(Src(), old(Cur())), ok, a)
      ensures Agrees(D.ReadGuildAttribute(Src(), old(Bare())), ok, a)
    {
      hide Valid;
      ok, a := true, None;
      var c := ReadCoder();
      if c == CODER_NIL {
        return;
      }
      var messageSeq := Uvarint();
      var internalId := Uvarint();
      var senderTinyId := Uvarint();
      var senderName;
      ok, senderName := Str();
      if ok {
        var timestamp := Varint();
        a := Some(GuildAttribute(messageSeq, internalId, senderTinyId, senderName, timestamp));
      }
    }

    method ReadQuoted() returns (ok: bool, q: Option<Quoted<Content>>)
      requires Valid()
      modifies this, data, strings
      ensures Valid() && old(data.pos) <= data.pos
      ensures Does(D.ReadQuoted(Src(), old(Cur())), ok, q)
      ensures Agrees(D.ReadQuoted(Src(), old(Bare())), ok, q)
    {
      hide Valid;
      ok, q := true, None;
      var c := ReadCoder();
      if c == CODER_NIL {
        return;
      }
      var prevId, content;
      ok, prevId := Str();
      if !ok {
        return;
      }
      var prevGlobalId := Varint();
      ok, content := ArrayMsg();
      q := Some(Quoted(prevId, ToI32(prevGlobalId), content));
    }

    method ReadGroupMessage() returns (ok: bool, m: Option<GroupMessage<Content>>)
      requires Valid()
      modifies this, data, strings
      ensures Valid()
      ensures Does(D.ReadGroupMessage(Src(), old(Cur())), ok, m)
      ensures Agrees(D.ReadGroupMessage(Src(), old(Bare())), ok, m)
    {
      hide Valid, D.ReadByte, D.ReadUvarint, D.ReadVarint, D.ReadString, D.ReadArray;
      hide D.ReadAttribute, D.ReadGuildAttribute, D.ReadQuoted, D.CachedRead;
      ok, m := true, None;
      var c := ReadCoder();
      if c == CODER_NIL {
        return;
      }
      var id, attribute, subType, quoted, anonymousId, content;
      ok, id := Str();
      if !ok {
        return;
      }
      var globalId := Varint();
      ok, attribute := ReadAttribute();
      if !ok {
        return;
      }
      ok, subType := Str();
      if !ok {
        return;
      }
      ok, quoted := ReadQuoted();
      if !ok {
        return;
      }
      var groupCode := Varint();
      ok, anonymousId := Str();
      if !ok {
        return;
      }
      ok, content := ArrayMsg();
      m := Some(GroupMessage(id, ToI32(globalId), attribute, subType, quoted, groupCode, anonymousId, content));
    }

    method ReadPrivateMessage() returns (ok: bool, m: Option<PrivateMessage<Content>>)
      requires Valid()
      modifies this, data, strings
      ensures Valid()
      ensures Does(D.ReadPrivateMessage(Src(), old(Cur())), ok, m)
      ensures Agrees(D.ReadPrivateMessage(Src(), old(Bare())), ok, m)
    {
      hide Valid, D.ReadByte, D.ReadUvarint, D.ReadVarint, D.ReadString, D.ReadArray;
      hide D.ReadAttribute, D.ReadGuildAttribute, D.ReadQuoted, D.CachedRead;
      ok, m := true, None;
      var c := ReadCoder();
      if c == CODER_NIL {
        return;
      }
      var id, attribute, subType, quoted, content;
      ok, id := Str();
      if !ok {
        return;
      }
      var globalId := Varint();
      ok, attribute := ReadAttribute();
      if !ok {
        return;
      }
      ok, subType := Str();
      if !ok {
        return;
      }
      ok, quoted := ReadQuoted();
      if !ok {
        return;
      }
      var sessionUin := Varint();
      var targetUin := Varint();
      ok, content := ArrayMsg();
      m := Some(PrivateMessage(id, ToI32(globalId), attribute, subType, quoted, sessionUin, targetUin, content));
    }

    method ReadGuildMessage() returns (ok: bool, m: Option<GuildMessage<Content>>)
      requires Valid()
      modifies this, data, strings
      ensures Valid()
      ensures Does(D.ReadGuildMessage(Src(), old(Cur())), ok, m)
      ensures Agrees(D.ReadGuildMessage(Src(), old(Bare())), ok, m)
    {
      hide Valid, D.ReadByte, D.ReadUvarint, D.ReadVarint, D.ReadString, D.ReadArray;
      hide D.ReadAttribute, D.ReadGuildAttribute, D.ReadQuoted, D.CachedRead;
      ok, m := true, None;
      var c := ReadCoder();
      if c == CODER_NIL {
        return;
      }
      var id, attribute, quoted, content;
      ok, id := Str();
      if !ok {
        return;
      }
      ok, attribute := ReadGuildAttribute();
      if !ok {
        return;
      }
      var guildId := Uvarint();
      var channelId := Uvarint();
      ok, quoted := ReadQuoted();
      if !ok {
        return;
      }
      ok, content := ArrayMsg();
      m := Some(GuildMessage(id, attribute, guildId, channelId, quoted, content));
    }
  }

  /** Checks the version and cuts the two segments out of a stored value. */
  method NewReader(value: Bytes) returns (f: D.Opened, r: Reader?)
    ensures f == D.Unframe(value)
    ensures f.Segments? ==>
              && r != null && fresh(r) && fresh(r.data) && fresh(r.strings)
              && r.Valid() && r.Src() == f.src && r.Cur() == D.START
  {
    hide ReadLeb;
    r := null;
    var inner := new IntReader(value);
    var v := inner.Uvarint();
    if v != DATA_VERSION {
      return D.BadVersion(v), null;
    }
    var sl := inner.Uvarint();
    var dl := inner.Uvarint();
    var whence := inner.pos;
    if sl >= TWO_63 || dl >= TWO_63 || whence + sl + dl > |value| {
      return D.BadFrame, null;
    }
    var src := D.Source(value[whence..whence + sl], value[whence + sl..whence + sl + dl]);
    r := new Reader(src);
    f := D.Segments(src);
  }
}
