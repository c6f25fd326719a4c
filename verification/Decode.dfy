/** What the index reader computes on arbitrary bytes, with its string cache or with direct lookups. */
module Decode {
  import opened GoTypes
  import opened Varint
  import opened IndexStream
  import opened Message

  /** The longest slice of maps that Go can make: 2^48 bytes of pointers. A longer one is a panic. */
  const MAX_SLICE: nat := 0x2000_0000_0000

  /** The two segments of a stored value. */
  datatype Source = Source(pool: Bytes, data: Bytes)

  /** The pool cursor and the cache. */
  datatype Pooled = Pooled(cursor: nat, cache: map<U64, Bytes>)

  /** How strings are found: as the reader does it, or by looking at the offset every time. */
  datatype Strings = Cached(st: Pooled) | Direct

  /** How far the index segment is read, and the state of the strings. */
  datatype Cursor = Cursor(pos: nat, strings: Strings)

  const START: Cursor := Cursor(0, Cached(Pooled(0, map[])))

  /**
   * A value and the cursor behind it, a panic, or a direct lookup at an offset of 2^63 or more.
   * The reader has a result there, too: its seek fails, the error is dropped, and the string is read
   * from wherever the pool cursor stands.
   */
  datatype Read<+T> = Done(value: T, next: Cursor) | Panic | BadSeek {
    predicate IsFailure() {
      !Done?
    }

    function PropagateFailure<U>(): Read<U>
      requires IsFailure()
    {
      if Panic? then Panic else BadSeek
    }

    function Extract(): (T, Cursor)
      requires Done?
    {
      (value, next)
    }
  }

  /** The cursor moves forward inside the segment, and with the cache every read has a result. */
  predicate Onward<T>(src: Source, p: Cursor, r: Read<T>) {
    && (r.Done? ==> p.pos <= r.next.pos <= |src.data| && r.next.strings.Cached? == p.strings.Cached?)
    && (r.BadSeek? ==> p.strings.Direct?)
  }

  /** The length-prefixed string that stands at `off` in the pool; None if the slice is out of range. */
  function StringAt(pool: Bytes, off: nat): Option<Bytes> {
    var (l, w) := ReadLeb(pool, off, 0, 0);
    if l < TWO_63 && w + l <= |pool| then Some(pool[w..w + l]) else None
  }

  function SeekTo(off: U64, cursor: nat): nat {
    if off < TWO_63 then off else cursor
  }

  /** One string read with the cache; None is a slice panic, after which the reader is not used. */
  function CachedRead(pool: Bytes, st: Pooled, off: U64): (Option<Bytes>, Pooled) {
    if off in st.cache then (Some(st.cache[off]), st)
    else
      var from := SeekTo(off, st.cursor);
      var cursor := ReadLeb(pool, from, 0, 0).1;
      match StringAt(pool, from)
      case None => (None, Pooled(cursor, st.cache))
      case Some(s) => (Some(s), Pooled(cursor, st.cache[off := s]))
  }

  /** The cache is right about every offset that can be sought. */
  ghost predicate CacheFaithful(pool: Bytes, cache: map<U64, Bytes>) {
    forall off :: off in cache && off < TWO_63 ==> StringAt(pool, off) == Some(cache[off])
  }

  ghost predicate Faithful(pool: Bytes, s: Strings) {
    s.Cached? ==> CacheFaithful(pool, s.st.cache)
  }

  lemma {:induction false} ReadStaysFaithful(pool: Bytes, st: Pooled, off: U64)
    requires Faithful(pool, Cached(st))
    ensures Faithful(pool, Cached(CachedRead(pool, st, off).1))
  {
    hide ReadLeb, StringAt;
  }

  function ReadByte(src: Source, p: Cursor): (Byte, Cursor) {
    if p.pos < |src.data| then (src.data[p.pos], p.(pos := p.pos + 1)) else (0, p)
  }

  function ReadUvarint(src: Source, p: Cursor): (r: (U64, Cursor))
    requires p.pos <= |src.data|
    ensures p.pos <= r.1.pos <= |src.data| && r.1.strings == p.strings
  {
    var (u, q) := ReadLeb(src.data, p.pos, 0, 0);
    (u, p.(pos := q))
  }

  function ReadVarint(src: Source, p: Cursor): (r: (I64, Cursor))
    requires p.pos <= |src.data|
    ensures p.pos <= r.1.pos <= |src.data| && r.1.strings == p.strings
  {
    var (u, q) := ReadUvarint(src, p);
    (UnZigZag(u), q)
  }

  function ReadString(src: Source, p: Cursor): (r: Read<Bytes>)
    requires p.pos <= |src.data|
    ensures Onward(src, p, r)
  {
    var (off, q) := ReadUvarint(src, p);
    match p.strings
    case Cached(st) =>
      (match CachedRead(src.pool, st, off)
       case (None, _) => Panic
       case (Some(s), st') => Done(s, q.(strings := Cached(st'))))
    case Direct =>
      if off >= TWO_63 then BadSeek
      else
        match StringAt(src.pool, off)
        case None => Panic
        case Some(s) => Done(s, q)
  }

  function ReadScalar(src: Source, c: Byte, p: Cursor): (r: Read<Scalar>)
    requires p.pos <= |src.data|
    ensures Onward(src, p, r)
  {
    if c == CODER_NIL then Done(Nil, p)
    else if c in {CODER_INT, CODER_INT32, CODER_INT64} then
      var (i, q) := ReadVarint(src, p);
      Done(if c == CODER_INT then Int(i) else if c == CODER_INT32 then Int32(ToI32(i)) else Int64(i), q)
    else if c in {CODER_UINT, CODER_UINT32, CODER_UINT64} then
      var (u, q) := ReadUvarint(src, p);
      Done(if c == CODER_UINT then Uint(u) else if c == CODER_UINT32 then Uint32(u % TWO_32) else Uint64(u), q)
    else if c == CODER_STRING then
      var (s, q) :- ReadString(src, p);
      Done(String(s), q)
    else Panic
  }

  function ReadObj(src: Source, p: Cursor): (r: Read<Value>)
    requires p.pos <= |src.data|
    ensures Onward(src, p, r)
    decreases |src.data| - p.pos, 0, 0
  {
    var (c, q) := ReadByte(src, p);
    if c == CODER_MSG then
      var (m, n) :- ReadMsg(src, q);
      Done(Nested(m), n)
    else if c == CODER_ARRAY_MSG then
      var (ms, n) :- ReadArray(src, q);
      Done(List(ms), n)
    else
      var (s, n) :- ReadScalar(src, c, q);
      Done(Leaf(s), n)
  }

  function ReadMsg(src: Source, p: Cursor): (r: Read<MSG>)
    requires p.pos <= |src.data|
    ensures Onward(src, p, r)
    decreases |src.data| - p.pos, 2, 0
  {
    var (n, q) := ReadUvarint(src, p);
    ReadEntries(src, q, n, map[])
  }

  /** n more entries, put into acc. */
  function ReadEntries(src: Source, p: Cursor, n: nat, acc: map<Bytes, Value>): (r: Read<MSG>)
    requires p.pos <= |src.data|
    ensures Onward(src, p, r)
    decreases |src.data| - p.pos, 1, n
  {
    if n == 0 then Done(MSG(acc), p)
    else
      var (k, q) :- ReadString(src, p);
      var (v, t) :- ReadObj(src, q);
      ReadEntries(src, t, n - 1, acc[k := v])
  }

  function ReadArray(src: Source, p: Cursor): (r: Read<seq<MSG>>)
    requires p.pos <= |src.data|
    ensures Onward(src, p, r)
    decreases |src.data| - p.pos, 4, 0
  {
    var (n, q) := ReadUvarint(src, p);
    if n > MAX_SLICE then Panic else ReadElements(src, q, n, [])
  }

  /** n more elements, put behind acc. */
  function ReadElements(src: Source, p: Cursor, n: nat, acc: seq<MSG>): (r: Read<seq<MSG>>)
    requires p.pos <= |src.data|
    ensures Onward(src, p, r)
    decreases |src.data| - p.pos, 3, n
  {
    if n == 0 then Done(acc, p)
    else
      var (m, q) :- ReadMsg(src, p);
      ReadElements(src, q, n - 1, acc + [m])
  }

  function ReadAttribute(src: Source, p: Cursor): (r: Read<Option<Attribute>>)
    requires p.pos <= |src.data|
    ensures Onward(src, p, r)
  {
    var (c, p0) := ReadByte(src, p);
    if c == CODER_NIL then Done(None, p0)
    else
      var (messageSeq, p1) := ReadVarint(src, p0);
      var (internalId, p2) := ReadVarint(src, p1);
      var (senderUin, p3) := ReadVarint(src, p2);
      var (senderName, p4) :- ReadString(src, p3);
      var (timestamp, p5) := ReadVarint(src, p4);
      Done(Some(Attribute(ToI32(messageSeq), ToI32(internalId), senderUin, senderName, timestamp)), p5)
  }

  function ReadGuildAttribute(src: Source, p: Cursor): (r: Read<Option<GuildAttribute>>)
    requires p.pos <= |src.data|
    ensures Onward(src, p, r)
  {
    var (c, p0) := ReadByte(src, p);
    if c == CODER_NIL then Done(None, p0)
    else
      var (messageSeq, p1) := ReadUvarint(src, p0);
      var (internalId, p2) := ReadUvarint(src, p1);
      var (senderTinyId, p3) := ReadUvarint(src, p2);
      var (senderName, p4) :- ReadString(src, p3);
      var (timestamp, p5) := ReadVarint(src, p4);
      Done(Some(GuildAttribute(messageSeq, internalId, senderTinyId, senderName, timestamp)), p5)
  }

  function ReadQuoted(src: Source, p: Cursor): (r: Read<Option<Quoted<Content>>>)
    requires p.pos <= |src.data|
    ensures Onward(src, p, r)
  {
    var (c, p0) := ReadByte(src, p);
    if c == CODER_NIL then Done(None, p0)
    else
      var (prevId, p1) :- ReadString(src, p0);
      var (prevGlobalId, p2) := ReadVarint(src, p1);
      var (content, p3) :- ReadArray(src, p2);
      Done(Some(Quoted(prevId, ToI32(prevGlobalId), content)), p3)
  }

  function ReadGroupMessage(src: Source, p: Cursor): (r: Read<Option<GroupMessage<Content>>>)
    requires p.pos <= |src.data|
    ensures Onward(src, p, r)
  {
    hide ReadUvarint, ReadVarint, ReadString, ReadAttribute, ReadQuoted, ReadArray;
    var (c, p0) := ReadByte(src, p);
    if c == CODER_NIL then Done(None, p0)
    else
      var (id, p1) :- ReadString(src, p0);
      var (globalId, p2) := ReadVarint(src, p1);
      var (attribute, p3) :- ReadAttribute(src, p2);
      var (subType, p4) :- ReadString(src, p3);
      var (quoted, p5) :- ReadQuoted(src, p4);
      var (groupCode, p6) := ReadVarint(src, p5);
      var (anonymousId, p7) :- ReadString(src, p6);
      var (content, p8) :- ReadArray(src, p7);
      Done(Some(GroupMessage(id, ToI32(globalId), attribute, subType, quoted, groupCode, anonymousId, content)), p8)
  }

  function ReadPrivateMessage(src: Source, p: Cursor): (r: Read<Option<PrivateMessage<Content>>>)
    requires p.pos <= |src.data|
    ensures Onward(src, p, r)
  {
    hide ReadUvarint, ReadVarint, ReadString, ReadAttribute, ReadQuoted, ReadArray;
    var (c, p0) := ReadByte(src, p);
    if c == CODER_NIL then Done(None, p0)
    else
      var (id, p1) :- ReadString(src, p0);
      var (globalId, p2) := ReadVarint(src, p1);
      var (attribute, p3) :- ReadAttribute(src, p2);
      var (subType, p4) :- ReadString(src, p3);
      var (quoted, p5) :- ReadQuoted(src, p4);
      var (sessionUin, p6) := ReadVarint(src, p5);
      var (targetUin, p7) := ReadVarint(src, p6);
      var (content, p8) :- ReadArray(src, p7);
      Done(Some(PrivateMessage(id, ToI32(globalId), attribute, subType, quoted, sessionUin, targetUin, content)), p8)
  }

  function ReadGuildMessage(src: Source, p: Cursor): (r: Read<Option<GuildMessage<Content>>>)
    requires p.pos <= |src.data|
    ensures Onward(src, p, r)
  {
    hide ReadUvarint, ReadVarint, ReadString, ReadGuildAttribute, ReadQuoted, ReadArray;
    var (c, p0) := ReadByte(src, p);
    if c == CODER_NIL then Done(None, p0)
    else
      var (id, p1) :- ReadString(src, p0);
      var (attribute, p2) :- ReadGuildAttribute(src, p1);
      var (guildId, p3) := ReadUvarint(src, p2);
      var (channelId, p4) := ReadUvarint(src, p3);
      var (quoted, p5) :- ReadQuoted(src, p4);
      var (content, p6) :- ReadArray(src, p5);
      Done(Some(GuildMessage(id, attribute, guildId, channelId, quoted, content)), p6)
  }

  datatype Opened = Segments(src: Source) | BadVersion(version: U64) | BadFrame

  /** Takes the frame apart; a segment that does not fit into the value is a slice panic. */
  function Unframe(value: Bytes): Opened {
    var (version, p0) := ReadLeb(value, 0, 0, 0);
    if version != DATA_VERSION then BadVersion(version)
    else
      var (sl, p1) := ReadLeb(value, p0, 0, 0);
      var (dl, p2) := ReadLeb(value, p1, 0, 0);
      if sl < TWO_63 && dl < TWO_63 && p2 + sl + dl <= |value| then
        Segments(Source(value[p2..p2 + sl], value[p2 + sl..p2 + sl + dl]))
      else BadFrame
  }

  /** One more element: a failing read makes the whole list fail in the same way. */
  lemma {:induction false} ElementsStep(src: Source, p: Cursor, n: nat, acc: seq<MSG>)
    requires p.pos <= |src.data|
    ensures
      var m := ReadMsg(src, p);
      ReadElements(src, p, n + 1, acc)
      == if m.Done? then ReadElements(src, m.next, n, acc + [m.value]) else m.PropagateFailure<seq<MSG>>()
  {
    hide ReadMsg;
  }

  /** The two reads that one more entry takes. */
  lemma {:induction false} EntriesStep(
    src: Source, p: Cursor, n: nat, acc: map<Bytes, Value>, k: Bytes, q: Cursor, v: Value, t: Cursor)
    requires p.pos <= |src.data| && ReadString(src, p) == Done(k, q)
    requires ReadObj(src, q) == Done(v, t)
    ensures ReadEntries(src, p, n + 1, acc) == ReadEntries(src, t, n, acc[k := v])
  {
    hide ReadString, ReadObj;
  }

  /** A failing read makes the whole map fail in the same way. */
  lemma {:induction false} EntriesFail(src: Source, p: Cursor, n: nat, acc: map<Bytes, Value>)
    requires p.pos <= |src.data| && n > 0
    ensures ReadString(src, p).IsFailure() ==>
              ReadEntries(src, p, n, acc) == ReadString(src, p).PropagateFailure<MSG>()
    ensures ReadString(src, p).Done? && ReadObj(src, ReadString(src, p).next).IsFailure() ==>
              ReadEntries(src, p, n, acc) == ReadObj(src, ReadString(src, p).next).PropagateFailure<MSG>()
  {
    hide ReadString, ReadObj;
  }

  // What arbitrary bytes mean, without looking at how they are read.

  /** A string is found exactly if its length stands at the offset and its bytes stand behind that. */
  lemma {:induction false} StringAtExactly(pool: Bytes, off: nat, s: Bytes)
    ensures StringAt(pool, off) == Some(s) <==>
            && |s| < TWO_63 && ReadLeb(pool, off, 0, 0).0 == |s| && At(pool, ReadLeb(pool, off, 0, 0).1, s)
  {
    hide ReadLeb;
  }

  /**
   * Reading a new string seeks to its offset, or fails to if that is 2^63 or more; then the pool cursor stands in
   * front of the string, which is kept under the offset. A known string changes nothing.
   */
  lemma {:induction false} CachedReadExactly(pool: Bytes, st: Pooled, off: U64, s: Bytes)
    requires CachedRead(pool, st, off).0 == Some(s)
    ensures
      var st' := CachedRead(pool, st, off).1;
      if off in st.cache then st' == st && s == st.cache[off]
      else
        && StringAt(pool, if off < 0x8000_0000_0000_0000 then off else st.cursor) == Some(s)
        && st'.cache == st.cache[off := s] && At(pool, st'.cursor, s)
        && ReadLeb(pool, if off < 0x8000_0000_0000_0000 then off else st.cursor, 0, 0) == (|s|, st'.cursor)
  {
    hide ReadLeb;
  }

  /** Direct lookups are defined below 2^63. */
  lemma {:induction false} DirectExactly(src: Source, pos: nat, s: Bytes)
    requires pos <= |src.data|
    ensures
      var p := Cursor(pos, Direct);
      var (off, q) := ReadUvarint(src, p);
      && (ReadString(src, p) == BadSeek <==> off >= 0x8000_0000_0000_0000)
      && (ReadString(src, p) == Done(s, q) <==> off < 0x8000_0000_0000_0000 && StringAt(src.pool, off) == Some(s))
  {
    hide ReadUvarint, StringAt;
  }

  /** Behind its end the index reads as zeros: coders as nil, counts and numbers as 0. */
  lemma {:induction false} EndReadsAsZero(src: Source, p: Cursor)
    requires p.pos == |src.data|
    ensures ReadByte(src, p) == (0, p) && ReadUvarint(src, p) == (0, p) && ReadVarint(src, p) == (0, p)
    ensures ReadObj(src, p) == Done(Leaf(Nil), p)
    ensures ReadMsg(src, p) == Done(MSG(map[]), p) && ReadArray(src, p) == Done([], p)
  {
  }

  /** Values have the coders 0 to 9; every other one is a panic. */
  lemma {:induction false} UnknownCoderPanics(src: Source, p: Cursor)
    requires p.pos < |src.data| && src.data[p.pos] > 9
    ensures ReadObj(src, p) == Panic
  {
    hide ReadMsg, ReadArray, ReadString, ReadVarint, ReadUvarint;
  }

  /** A frame opens exactly if it consists of version 1, both lengths, and at least as many bytes. */
  lemma {:induction false} UnframeExactly(value: Bytes, src: Source)
    ensures
      var v := ReadLeb(value, 0, 0, 0);
      && (Unframe(value).BadVersion? <==> v.0 != 1)
      && var sl := ReadLeb(value, v.1, 0, 0);
      var dl := ReadLeb(value, sl.1, 0, 0);
      && (Unframe(value) == Segments(src) <==>
            && v.0 == 1 && sl.0 == |src.pool| < TWO_63 && dl.0 == |src.data| < TWO_63
            && At(value, dl.1, src.pool + src.data))
  {
    hide ReadLeb;
    var v := ReadLeb(value, 0, 0, 0);
    var sl := ReadLeb(value, v.1, 0, 0);
    var dl := ReadLeb(value, sl.1, 0, 0);
    AtSplit(value, dl.1, src.pool, src.data);
  }
}
