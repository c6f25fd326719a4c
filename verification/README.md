# Verified models of go-cqhttp (Weixin edition)

This project models the parts of the bot in which bytes, queues, rules and files have to come out right,
and proves what they promise. The command to verify the project is `dafny verify dfyconfig.toml` (Dafny 4.11).

## What is modelled

**The LevelDB message codec** (`Varint`, `StringPool`, `IndexStream`, `Message`, `Writer`, `Decode`, `Reader`,
`RoundTrip`, `Database`, `StoredForm`). A stored value has two segments: a pool that holds every distinct string once, and an
index stream of varints, type coders and pool offsets. The classes `IntWriter`, `Writer`, `IntReader` and
`Reader` have the fields of the Go structs. A ghost log of tokens determines both segments of the writer, so
each writer method only says which tokens it adds. Go visits a map in any order: a `Visit` is a value together
with the orders in which its maps happen to be visited, `Visited` forgets the orders, and every key order of
every map is some visit. `Decode` says what is computed on arbitrary bytes, well-formed or not, once with the
reader's pool cursor and cache and once with every string looked up directly; slice and coder panics are
results. The main theorem is `LastInsertionWins`: after any run of insertions of messages of the three kinds,
every key reads back exactly the last message stored under it, and as no other kind.

The reader drops the error of a failing seek, which happens at offsets of 2^63 and more. There, and only
there, the cache of the reader can be noticed (`CacheRefinesDirectReads`). Each reader method does exactly
what is decoded with the cache on every input, and says the same as direct lookups unless they meet such an
offset. `StoredForm` fixes the bytes themselves, so that stores written earlier stay readable.

A nil message without an error is never returned for what this program has stored (`RunNeverNothing`). For
other values the getters differ, and `GuildNothingExactly` and its companions say exactly where it happens.

**CQ codes and quoting** (`Utf8`, `Escape`, `CqCode`, `CqRoundTrip`, `CqGrammar`, `QuoteJson`). Strings are byte strings, one
char a byte. Parsing what was printed gives the normal form of the printed list, with neighbouring texts joined
and empty ones dropped (`ParseOfPrint`), so a list comes back unchanged exactly if it is canonical
(`ParsePrintExactly`), and a parsed string survives printing and parsing exactly if its tags of type text look
like the printer's texts (`ParsePrintParse`). `CqGrammar` says what the scanner accepts on any string: where a tag
opens, and what a tag is. `QuoteJSON` is checked against a decoder of string literals written from section 7 of
RFC 8259: quoting is undone exactly on the concatenations of encoded Unicode scalar values.

**Concurrency** (`LongPolling`, `Download`). The critical sections are methods; the whole protocol is a step
function on values, with a theorem over every sequence of actions, that is, every interleaving. Long polling
loses, invents and reorders nothing, but not every request is answered. A request gets no events exactly if
its worker has sent before it listened or after it timed out (`UnheardExactly`); in every other case some
continuation answers it (`AnswerableExactly`). Such a worker also swallows the wake-up that another request
needed: a request that listens in time can sleep on beside a queued event (`WakeUpCanBeLost`), exactly from
the steps named in `StrandedExactly` on, and only after a worker went unheard while it slept
(`StrandedOnlyAfterUnheard`). The file written by the parallel
downloaders depends only on how far each of them has come. Since the file is not truncated when it is opened,
the download equals the source exactly if the path did not hold a longer file before (`DownloadDelivers`).
That needs bodies that supply their ranges (`RangesTakenExactly`): a body that ends early counts as a success,
and `FileExactly` says what the file holds then.

**The partition** (`Partition`, `WordArithmetic`). The blocks are planned in wrapping 64-bit arithmetic. Whenever
the loop ends, its blocks are a partition exactly if the block size is positive and its first multiple not below
the content length is still a 64-bit word (`PlanTilesExactly`); for contents up to 2^62 bytes that means eleven
bytes for each thread (`FitsBelow`). Whether the loop ends at all depends on the power of two in the block size
(`LoopEndsExactly`): the loop variable goes round through all the multiples of it.

**The event filter** (`EventFilter`). `Passes` is the meaning of a rule, read off the JSON as
`docs/EventFilter.md` describes it. Compilation succeeds exactly on the rules in `WellFormed` and gives a filter
with that meaning; evaluation with its early exits agrees with it; the order of keys and of the operands of
`or` does not matter at any depth.

**Weixin state** (`Contacts`, `ContactStore`, `ClientState`, `AesEcb`). Contacts are objects shared by two maps;
the runtime's methods are verified for every store file, and `SharedExactly` says when the maps share all their
objects. Saving and
reloading loses nothing exactly if no raw ID is empty (`loadContacts` passes those over) and no two raw IDs
have the same hash; over whole runs, restarts go unnoticed exactly under that condition. Session, update cursor and
message log are a state machine over files. A second login leaves the cursor of the first one in use, and
`OwnCursorExactly` says when a request carries a cursor of its own session. PKCS#7 padding (section 6.3 of RFC 5652) and the block mode are
exact inverses around an abstract block permutation.

**SplitURL** (`SplitUrl`). The pieces join to the input, and each host name is cut once, inside itself.

Proof style: `hide` statements keep function bodies out of proofs that do not need them, and every lemma turns
automatic induction off.

## Where code and documentation differ

The models follow the code.

- `docs/EventFilter.md:162-163` asks for a string argument of `.contains` and `.regex`; the code also takes
  numbers, booleans and null, by their text.
- `GetGuildChannelMessageByID` sets a local `err` when it recovers (`db/leveldb/leveldb.go:96-105`), and its results
  have no names: after a panic the caller gets a nil message with a nil error, where `GetMessageByGlobalID` returns
  the error. The check of `err == nil` in `coolq/api.go:1752-1757` does not help then (`PanicLooksLikeNothing`).
- The multi-threaded download reports success when a body ends early with a regular end of file
  (`SuccessIsNotDelivery`).
- A cursor outlives the login under which it was received: a confirmed login does not remove the cursor file, only an
  invalidated session does (`CursorOfEarlierLogin`).
- The partition of a download overflows for lengths near 2^63 (`WrappedExample`).
- `.eq` compares texts, so `null`, an absent key and `""` are equal, and so are `1` and `"1"`;
  arrays and objects are compared by their raw text, spaces included.
- The branch of `QuoteJSON` that escapes `<`, `>` and `&` (`internal/msg/element.go:193-200`) is never reached:
  the fast path above it takes these characters. They are copied, and so is byte 0x7f.
- The padding functions test for a padding of 0 (`internal/weixin/client.go:1199-1201`, `1228-1230`), which does not occur.

## Model

| member | source | states |
|---|---|---|
| Varint.ZigZagInverse | db/leveldb/writer.go:13-15 | the signed mapping is a bijection between int64 and uint64, both ways |
| Varint.ZigZagValue | db/leveldb/writer.go:13-15 | x is written as 2x, and as -2x-1 if it is negative |
| Varint.LebMeans | db/leveldb/writer.go:17-23 | the base-128 digits written stand for the number, only the last one is unmarked, and there are no more than needed |
| Varint.LebAtMostTen | db/leveldb/writer.go:17-23 | every 64-bit word is written in one to ten bytes |
| Varint.ReadLebOfLeb | db/leveldb/reader.go:26-34 | reading undoes writing for every uint64, at any position and before any further data, and stops behind the last digit |
| Varint.ReadLebExactly | db/leveldb/reader.go:26-34 | the value and the position left behind by reading any bytes: cut off, overlong or regular |
| Varint.LebPrefixFree | db/leveldb/writer.go:17-23 | no encoding is a prefix of another |
| Writer.IntWriter.Uvarint | db/leveldb/writer.go:17-23 | the shift loop terminates and appends the base-128 digits |
| Writer.IntWriter.Varint | db/leveldb/writer.go:13-15 | appends the digits of the ZigZag value |
| StringPool.PoolOnlyGrows | db/leveldb/writer.go:70-82 | more strings keep all bytes and all offsets of the pool |
| StringPool.SlotAtOffset | db/leveldb/writer.go:70-82 | the offset of a stored string points at its length-prefixed bytes |
| StringPool.SlotsAreDisjoint | db/leveldb/writer.go:70-82 | the slots of different strings do not overlap |
| IndexStream.OrderInvariant | db/leveldb/writer.go:70-82 | after any run of the writer exactly the strings written are pooled, each of them once |
| IndexStream.EmittedBytesStay | db/leveldb/writer.go:135-143 | whatever is written later, pool bytes, offsets and index bytes already emitted keep their meaning |
| Writer.Writer.Str | db/leveldb/writer.go:70-82 | interning keeps both segments and the string index determined by the tokens written |
| Writer.Writer.Msg | db/leveldb/writer.go:84-90 | the tokens added are those of some visit of this very map, in whatever order the keys are taken |
| Writer.Writer.ArrayMsg | db/leveldb/writer.go:92-97 | the tokens added are those of a visit of the list |
| Writer.Writer.Obj | db/leveldb/writer.go:99-133 | the tokens added are those of a visit of the value, for every supported type |
| Writer.Writer.WriteAttribute | db/leveldb/structs.go:100-111 | the tokens added for attributes, present or nil |
| Writer.Writer.WriteGuildAttribute | db/leveldb/structs.go:127-138 | the tokens added for guild attributes, present or nil |
| Writer.Writer.WriteQuoted | db/leveldb/structs.go:154-163 | the tokens added for quoted messages, present or nil |
| Writer.Writer.WriteGroupMessage | db/leveldb/structs.go:5-19 | the tokens added are those of a visit of the group message |
| Writer.Writer.WritePrivateMessage | db/leveldb/structs.go:38-52 | the tokens added are those of a visit of the private message |
| Writer.Writer.WriteGuildMessage | db/leveldb/structs.go:71-83 | the tokens added are those of a visit of the guild message |
| Writer.Writer.Finish | db/leveldb/writer.go:135-143 | version, both lengths, pool and index of everything written |
| Message.VisitInOrder | db/leveldb/writer.go:84-90 | every order of a map's keys is the order of some visit of that map |
| StoredForm.ValueForms | db/leveldb/writer.go:99-133 | the bytes of each kind of value |
| StoredForm.MapForms | db/leveldb/writer.go:84-97 | the bytes of maps and lists |
| StoredForm.GroupForm | db/leveldb/structs.go:5-19 | the stored bytes of a group message with all parts |
| StoredForm.PrivateForm | db/leveldb/structs.go:38-52 | the stored bytes of a private message with all parts |
| StoredForm.GuildForm | db/leveldb/structs.go:71-83 | the stored bytes of a guild message with all parts |
| Reader.IntReader.Uvarint | db/leveldb/reader.go:31-34 | the loop of ReadUvarint on arbitrary bytes, with its error dropped |
| Decode.StringAtExactly | db/leveldb/reader.go:55-66 | a string is found at an offset if and only if its length stands there and its bytes behind that |
| Decode.CachedReadExactly | db/leveldb/reader.go:55-66 | a new string is looked up at its offset, or at the pool cursor if the seek fails, and is kept; the cursor stands in front of it |
| Decode.EndReadsAsZero | db/leveldb/reader.go:26-48 | behind its end the index reads as nil values and zero counts |
| Decode.UnknownCoderPanics | db/leveldb/reader.go:87-112 | values have the coders 0 to 9, every other one panics |
| Decode.UnframeExactly | db/leveldb/reader.go:114-131 | a value opens into two segments if and only if it is version 1, both lengths, and at least as many bytes |
| Reader.CacheRefinesDirectReads | db/leveldb/reader.go:55-66 | over all pools and all runs of reads, the cache cannot be noticed at an offset if and only if the offset is below 2^63 |
| Reader.CacheShowsAfterFailedSeek | db/leveldb/reader.go:60-61 | a pool and a run of reads after which a failing seek reads different strings with and without the cache |
| Reader.Reader.Str | db/leveldb/reader.go:55-66 | one string read with the cache, from any state of cursor and cache; the direct lookup says the same below 2^63 |
| Reader.Reader.Msg | db/leveldb/reader.go:68-76 | does what is decoded with the cache on arbitrary bytes: value or panic, both cursors and the cache; direct lookups say the same unless they meet an offset of 2^63 or more |
| Reader.Reader.ArrayMsg | db/leveldb/reader.go:78-85 | the same for lists of maps, whose counts panic above 2^45 |
| Reader.Reader.Obj | db/leveldb/reader.go:87-112 | the same for values, unknown coders included |
| Reader.Reader.ReadAttribute | db/leveldb/structs.go:113-125 | the same for attributes |
| Reader.Reader.ReadGuildAttribute | db/leveldb/structs.go:140-152 | the same for guild attributes |
| Reader.Reader.ReadQuoted | db/leveldb/structs.go:165-175 | the same for quoted messages |
| Reader.Reader.ReadGroupMessage | db/leveldb/structs.go:21-36 | the same for group messages |
| Reader.Reader.ReadPrivateMessage | db/leveldb/structs.go:54-69 | the same for private messages |
| Reader.Reader.ReadGuildMessage | db/leveldb/structs.go:85-98 | the same for guild messages |
| Reader.NewReader | db/leveldb/reader.go:114-131 | refuses other versions, panics on segments that do not fit, and else starts at the front of both |
| RoundTrip.StringFound | db/leveldb/reader.go:55-66 | every stored string is found at its offset |
| RoundTrip.ObjRead | db/leveldb/reader.go:87-112 | in front of an encoded value and any further data, with any faithful cache or with direct lookups, decoding gives the value visited and stops behind its last byte |
| RoundTrip.MsgRead | db/leveldb/reader.go:68-76 | the same for maps, whatever the order of the entries |
| RoundTrip.ArrayRead | db/leveldb/reader.go:78-85 | the same for lists of maps |
| RoundTrip.AttributeRead | db/leveldb/structs.go:100-125 | the same for attributes, present or nil |
| RoundTrip.GuildAttributeRead | db/leveldb/structs.go:127-152 | the same for guild attributes, present or nil |
| RoundTrip.QuotedRead | db/leveldb/structs.go:154-175 | the same for quoted messages, present or nil |
| RoundTrip.GroupMessageRead | db/leveldb/structs.go:5-36 | the same for group messages |
| RoundTrip.PrivateMessageRead | db/leveldb/structs.go:38-69 | the same for private messages |
| RoundTrip.GuildMessageRead | db/leveldb/structs.go:71-98 | the same for guild messages |
| RoundTrip.FrameOpened | db/leveldb/reader.go:114-131 | a framed value comes apart into the two segments it was made of |
| Database.InsertThenFetch | db/leveldb/leveldb.go:48-140 | a stored message is read back equal under its key, and reading it as another kind fails with the right error |
| Database.LastInsertionWins | db/leveldb/leveldb.go:48-140 | after any run of insertions, with any key function, each key reads back the last message that went to it; if there was none, all getters report that it is not found |
| Database.Database.InsertGroupMessage | db/leveldb/leveldb.go:118-124 | puts the encoding of a visit of this message under the key of its global ID, and changes nothing else |
| Database.Database.InsertPrivateMessage | db/leveldb/leveldb.go:126-132 | the same for private messages |
| Database.Database.InsertGuildChannelMessage | db/leveldb/leveldb.go:134-140 | the same for guild messages, under the message ID |
| Database.Database.GetMessageByGlobalID | db/leveldb/leveldb.go:48-70 | what is fetched from arbitrary stored bytes: absent keys, empty values, versions, panics, flags |
| Database.Database.GetGroupMessageByGlobalID | db/leveldb/leveldb.go:72-82 | what the group getter returns for arbitrary stored bytes; a stored nil struct is nil without an error |
| Database.Database.GetPrivateMessageByGlobalID | db/leveldb/leveldb.go:84-94 | what the private getter returns for arbitrary stored bytes; a stored nil struct is nil without an error |
| Database.Database.GetGuildChannelMessageByID | db/leveldb/leveldb.go:96-116 | what the guild getter returns for arbitrary stored bytes; after a panic nil without an error |
| Database.NotFoundExactly | db/leveldb/leveldb.go:48-116 | every getter reports that a message is not found if and only if there is nothing under the key |
| Database.ErrorsExactly | db/leveldb/leveldb.go:48-116 | exactly when the getters report a wrong version, a wrong flag, a wrong type or a panic |
| Database.EmptyValue | db/leveldb/leveldb.go:48-53 | no message and no error if and only if the value is empty; the typed getters report an error then |
| Database.GuildNothingExactly | db/leveldb/leveldb.go:96-116 | the guild getter returns neither message nor error if and only if the value's segments do not fit, or the flag is right and the struct is nil or the reader panics |
| Database.HugeCountIsNothing | db/leveldb/leveldb.go:96-116 | a value on which making a list of 2^62 elements panics, and the guild getter returns nothing |
| Database.GroupNothingExactly | db/leveldb/leveldb.go:72-82 | the group getter does so if and only if the flag is right and the struct is nil |
| Database.PrivateNothingExactly | db/leveldb/leveldb.go:84-94 | the same for the private getter |
| Database.PanicLooksLikeNothing | db/leveldb/leveldb.go:101-105 | a value on which one getter reports the panic and the guild getter swallows it |
| Database.RunNeverNothing | db/leveldb/leveldb.go:48-140 | after any run of insertions no getter returns a nil message without an error |
| Escape.EscapeText | internal/msg/element.go:19-52 | the counted scan-and-splice loop equals the character-by-character mapping |
| Escape.EscapeTextIsThreeReplacements | internal/msg/parse_test.go:48-57 | the mapping equals replacing '&', then '[', then ']' |
| Escape.EscapeValueIsEscaped | internal/msg/element.go:60-63 | escaping the comma afterwards is escaping four characters at once |
| Escape.EscapeValueIsFourReplacements | internal/msg/element.go:60-63 | escaping a value is replacing '&', '[', ']' and ',' in turn |
| Escape.FirstReplaced | internal/msg/element.go:70-87 | replacing goes on behind the first occurrence |
| Escape.NothingToUnescape | internal/msg/element.go:70-87 | a text without entities is left alone |
| Escape.UnescapeEscapeText | internal/msg/element.go:70-76 | unescaping undoes escaping for every text, entities in it included |
| Escape.UnescapeEscapeValue | internal/msg/element.go:84-87 | unescaping undoes escaping for every value |
| Escape.EscapedIsFree | internal/msg/element.go:13-18 | no bracket is left in escaped text, and no comma in escaped values |
| CqCode.WriteCQCodeTo | internal/msg/element.go:121-135 | appends the CQ code of the element, and nothing else |
| CqCode.ParseString | internal/msg/parse.go:45-104 | the scanner terminates on every string without leaving it, and returns the parse |
| CqCode.ParseOneTag | internal/msg/parse.go:59-101 | the scanner's inner loops: one tag, or none if the input ends inside it |
| CqGrammar.ParseExactly | internal/msg/parse.go:45-104 | what stands before the first "[CQ:" with a character behind it is one text, and behind it a tag is parsed |
| CqGrammar.PlainString | internal/msg/parse.go:45-58 | a string without such an opening and without entities is one text |
| CqGrammar.TagExactly | internal/msg/parse.go:59-101 | a tag is accepted if and only if it is a type without delimiters, pairs of keys without '=' and values without delimiters, and a bracket; the values are unescaped |
| CqRoundTrip.TagRoundTrip | internal/msg/parse.go:59-101 | a printed tag is parsed back whole, whatever follows |
| CqRoundTrip.ParseOfPrint | internal/msg/parse.go:45-104 | parsing any printed list gives its normal form: texts joined, empty texts dropped, tags as they were |
| CqRoundTrip.ParsePrintExactly | internal/msg/parse.go:45-104 | parsing the printed list gives the list back if and only if it is canonical |
| CqRoundTrip.ParsedIsCanonical | internal/msg/parse.go:45-104 | without a tag of type text, the result of parsing is canonical |
| CqRoundTrip.ParsedCanonicalExactly | internal/msg/parse.go:45-104 | the result of parsing is canonical if and only if every text tag of the input holds the single nonempty pair text and stands next to no other text |
| CqRoundTrip.ParsePrintParse | internal/msg/parse.go:45-104 | printing and parsing a parsed message again works and changes nothing, under exactly this condition |
| Utf8.EncodedIsDecoded | internal/msg/element.go:213 | the encoding of every scalar value is recognised and decoded, whatever follows |
| Utf8.DecodedIsEncoded | internal/msg/element.go:213 | whatever is recognised is the encoding of the scalar value it decodes to |
| QuoteJson.QuoteJSON | internal/msg/element.go:162-246 | the loop over two cursors quotes rune by rune |
| QuoteJson.QuoteDecodes | internal/msg/element.go:162-246 | every result is a JSON string literal, which denotes the input with each invalid byte replaced by U+FFFD |
| QuoteJson.QuoteRoundTrip | internal/msg/element.go:162-246 | the literal denotes exactly the input if and only if the input is a concatenation of encoded scalar values |
| QuoteJson.RuneQuoted | internal/msg/element.go:162-246 | how each scalar value is written: copied, or one of the escapes of JSON or JavaScript |
| QuoteJson.InvalidQuoted | internal/msg/element.go:213-221 | a byte that begins no encoded scalar value is written as \ufffd |
| QuoteJson.SanitizedRunes | internal/msg/element.go:213-221 | encoded scalar values stay, any other byte becomes U+FFFD |
| LongPolling.EventQueue.PushBack | server/middlewares.go:40-48 | the newest events stay, as many as the bound allows |
| LongPolling.EventQueue.TakeBatch | server/middlewares.go:66-83 | the batch is the front of the queue within the limit, and leaves it only if it is received |
| LongPolling.PushDropsOldest | server/middlewares.go:43-46 | a full queue gives up exactly its oldest event, any other queue nothing |
| LongPolling.AnsweredExactly | server/middlewares.go:60-83 | in every run, a request has got a batch if and only if its worker found it listening and took as many events as it asked for, or all there were |
| LongPolling.PollsAsOpened | server/middlewares.go:56-93 | a request keeps its limit and its timeout, and does not time out without one |
| LongPolling.EveryRunIsSafe | server/middlewares.go:36-94 | over every interleaving: events pushed equal events removed and then queued, in order; the bound holds; each poll got exactly one nonempty batch within its limit, or nothing |
| LongPolling.TimedOutTookNothing | server/middlewares.go:86-88 | a request that timed out has taken no event |
| LongPolling.UnheardExactly | server/middlewares.go:76-83 | in every run, a worker is done and its request without events if and only if it once found events while the request was not listening |
| LongPolling.StuckExactly | server/middlewares.go:76-93 | a request waits in vain if and only if that has happened and its timeout has not |
| LongPolling.StuckForever | server/middlewares.go:76-93 | from then on no continuation gives it events, and only its own timeout answers it at all |
| LongPolling.AnswerableExactly | server/middlewares.go:56-94 | a request has a continuation that answers it with events if and only if it has not timed out and its worker did not go unheard |
| LongPolling.EveryEventHasItsWakeUp | server/middlewares.go:47-65 | in every run, while a worker sleeps the queue holds no more events than there are workers on their way and wake-ups swallowed meanwhile |
| LongPolling.StrandedOnlyAfterUnheard | server/middlewares.go:47-83 | a worker sleeps beside events with nobody on the way only after another worker went unheard while it slept |
| LongPolling.StrandedExactly | server/middlewares.go:47-83 | it does so if and only if the last worker on its way left events behind, unheard or by its limit, and neither an event nor a request has come since |
| LongPolling.WakeUpCanBeLost | server/middlewares.go:47-83 | a run in which the worker of a timed-out request takes the only wake-up, and a request that listens sleeps on beside the event |
| LongPolling.AnswerCanBeLost | server/middlewares.go:76-83 | a run in which a request without timeout gets stuck while its event stays queued |
| Partition.PlanBlocks | internal/download/download.go:236-258 | for every length and thread count, in wrapping arithmetic: whether the loop ends within the turns given, and if so the block of each turn and the last one |
| Partition.BlockSizeExactly | internal/download/download.go:236-239 | above 1 MiB the block size is ten less than the share of a thread, rounded down |
| Partition.PlanTilesExactly | internal/download/download.go:240-258 | whenever the loop ends, its blocks are contiguous, nonempty and cover exactly the content if and only if there is a positive block size whose first multiple not below the content length is a 64-bit word; then no block is larger |
| Partition.FitsBelow | internal/download/download.go:240-254 | for contents over 1 MiB and up to 2^62 bytes this means eleven bytes for each thread |
| Partition.WrappedExample | internal/download/download.go:247-254 | 2^63-1 bytes and two threads: the third block ends below zero, and the loop goes on |
| Partition.LoopEndsExactly | internal/download/download.go:240-254 | the partition loop ends if and only if the content is at most 1 MiB, or the block size is not 0 and the content is at most 2^63 minus the largest power of two that divides the block size |
| Partition.EndlessExample | internal/download/download.go:240-254 | two mebibytes and 200000 threads: the loop does not end |
| Partition.OneBlockEach | internal/download/download.go:247-258 | an offset is inside the content if and only if it lies in a block, and it lies in one only |
| Download.BlockMetaData.DownloadBlock | internal/download/download.go:264-315 | a block sends on what the body supplies, up to its size and up to a failing write, and reports success if and only if that was all or the body ended regularly |
| Download.CutTakesLess | internal/download/download.go:302-305 | a failing write makes a block take a prefix of what it would take |
| Download.PayloadExactly | internal/download/download.go:285-311 | a body supplies all bytes up to its end, those read together with the end too, and none read with an error |
| Download.CanFinish | internal/download/download.go:323-334 | every job has a run in which all writers get through |
| Download.EveryRunKeepsInv | internal/download/download.go:323-334 | under every interleaving each byte of the file is what its writer wrote there, or what was there before |
| Download.NothingOutsideBlocks | internal/download/download.go:264-315 | no byte behind the content is touched, whatever the responses hold |
| Download.RangesTakenExactly | internal/download/download.go:289-311 | what the blocks take is the source if and only if every body supplies its range |
| Download.SuccessIsNotDelivery | internal/download/download.go:289-311 | every block succeeds, and nothing has arrived |
| Download.FileExactly | internal/download/download.go:264-335 | once every writer is through, the file begins with the source if and only if it is long enough and each byte was supplied right, or not supplied and right before |
| Download.DownloadDelivers | internal/download/download.go:192-335 | if every response supplies its range, the file begins with the source, and equals it if and only if the path held no longer file |
| EventFilter.Generate | modules/filter/filter.go:224-245 | compilation succeeds if and only if the rule is well-formed, and the filter means the rule on every payload |
| EventFilter.NewNotOp | modules/filter/filter.go:26-31 | the same for not, which re-enters and on the same argument |
| EventFilter.NewAndOp | modules/filter/filter.go:43-73 | the same for and, over any list of members |
| EventFilter.NewNode | modules/filter/filter.go:49-69 | the same for one member: operator, nested rule or plain value; an empty key panics |
| EventFilter.NewOrOp | modules/filter/filter.go:100-110 | the same for or |
| EventFilter.NewInOp | modules/filter/filter.go:158-173 | the same for in, over arrays and strings |
| EventFilter.Eval | modules/filter/filter.go:76-122 | evaluation with early exits gives the value of the whole conjunction or disjunction |
| EventFilter.OrderDoesNotMatter | docs/EventFilter.md:150 | rules that differ in the order of members and operands, at any depth, compile alike and pass the same payloads |
| EventFilter.KeyOrderDoesNotMatter | docs/EventFilter.md:150 | the same for a permutation of the keys of one object |
| EventFilter.ArgumentsExactly | modules/filter/filter.go:224-245 | which arguments each operator takes, and that there are no others |
| EventFilter.MembersMean | modules/filter/filter.go:49-69 | what a member of a rule means by its key |
| EventFilter.EqMeans | modules/filter/filter.go:124-138 | what a string value lets through |
| EventFilter.OperatorLaws | docs/EventFilter.md:148-163 | not and neq negate, in over an array is one of its values, contains is in the other way round |
| EventFilter.AllMembers | docs/EventFilter.md:148-163 | an object asks for all of its members |
| EventFilter.AnyOperand | docs/EventFilter.md:148-163 | or asks for one of its operands |
| EventFilter.ContainsExactly | modules/filter/filter.go:175-192 | containing is being cut around |
| Contacts.MapIdMeets | coolq/weixin.go:101-109 | two raw IDs meet in one ID if and only if their hashes agree in the low 63 bits, 0 and 1 being the same |
| Contacts.LoadedExactly | coolq/weixin.go:118-139 | each map holds for each of its keys the last entry of the file that has it, a raw ID and an ID |
| Contacts.SavedInOrder | coolq/weixin.go:141-165 | the file holds exactly the contacts of the ID map, by increasing ID |
| Contacts.ReloadKeepsIds | coolq/weixin.go:118-165 | whatever is stored, reloading reproduces the ID map and its contacts if and only if none of them has an empty raw ID or no ID |
| Contacts.ReloadExactly | coolq/weixin.go:118-165 | saving and reloading reproduces both maps if and only if no raw ID is empty and all hash apart |
| Contacts.Run | coolq/weixin.go:118-190 | over every run of observations and restarts, with any hash, each ID leads to the contact its raw ID has in the other map |
| Contacts.SameContactsExactly | coolq/weixin.go:168-190 | both maps hold the same contacts if and only if the raw IDs hash apart |
| Contacts.SavedIsHashed | coolq/weixin.go:141-165 | a file saved from a store with hashed IDs has hashed IDs |
| ContactStore.SavedIsShared | coolq/weixin.go:118-165 | after loading a file saved with hashed IDs the two maps share all objects |
| ContactStore.SharedExactly | coolq/weixin.go:118-190 | at any time, the two maps share their objects if and only if every contact of the ID map has the same ID in the raw map |
| ContactStore.RenumberedIsSplit | coolq/weixin.go:118-139 | a file after which they do not |
| Contacts.RunFollowsHistory | coolq/weixin.go:118-190 | over every run, restarts or not, both maps hold the contacts observed, each with its last nonempty token and last time, and the file loads to the same, if and only if no raw ID seen is empty and all hash apart |
| ContactStore.WeixinRuntime.constructor | coolq/weixin.go:69-85 | a new runtime holds what its store file says, whatever file that is |
| ContactStore.WeixinRuntime.LoadContacts | coolq/weixin.go:118-139 | both maps hold what any file says, one object for each entry, later entries replacing earlier ones |
| ContactStore.WeixinRuntime.SaveContacts | coolq/weixin.go:141-165 | the file holds the contacts of the ID map by increasing ID |
| ContactStore.WeixinRuntime.UpsertContact | coolq/weixin.go:168-190 | a known contact is updated in place, a new one enters both maps, and the file follows |
| ContactStore.WeixinRuntime.ContactByID | coolq/weixin.go:193-198 | the contact found under an ID has this ID |
| ClientState.LoadedSessionExactly | internal/weixin/client.go:258-273 | a session file without token or account counts as none, and missing URLs are filled in |
| ClientState.SessionIsLastConfirmed | internal/weixin/client.go:258-306 | in every run, memory and file belong to the last account confirmed and not refused, with the URL it asked for |
| ClientState.TimeoutChangesNothing | internal/weixin/client.go:451-466 | a request that times out changes no file |
| ClientState.RestartResumes | internal/weixin/client.go:258-334 | at every point of every run, a restart with any base URLs and the same state directory resumes exactly the session in memory |
| ClientState.RequestsCarryCursor | internal/weixin/client.go:451-466 | in every run each update request carries the last nonempty cursor received since the last invalidation |
| ClientState.OwnCursorExactly | internal/weixin/client.go:419-466 | in every run, the next request carries a cursor received under its own session, or none, if and only if that session has received one or was opened when none was in use |
| ClientState.CursorOfEarlierLogin | internal/weixin/client.go:419-466 | a run in which a second login sends the cursor of the first |
| ClientState.LogKeepsLast | internal/weixin/client.go:323-334 | in every run the message file holds the last entries logged, at most 200 |
| ClientState.Client.constructor | internal/weixin/client.go:188-214 | a new client takes its session from the state files |
| ClientState.Client.SaveSession | internal/weixin/client.go:285-298 | memory and file hold the same session |
| ClientState.Client.InvalidateSession | internal/weixin/client.go:300-306 | session and cursor are forgotten, in memory and on disk |
| ClientState.Client.ConfirmLogin | internal/weixin/client.go:420-435 | an incomplete confirmation changes nothing, any other one starts a session |
| ClientState.Client.PollUpdates | internal/weixin/client.go:451-466 | one update request as a step of the run, for every way it can end |
| ClientState.Client.AppendMessageLog | internal/weixin/client.go:323-334 | one log entry as a step of the run |
| AesEcb.Pkcs7Pad | internal/weixin/client.go:1197-1208 | the array holds the input and its padding |
| AesEcb.Pkcs7Unpad | internal/weixin/client.go:1210-1224 | the loop checks every padding byte |
| AesEcb.PadMeans | internal/weixin/client.go:1197-1208 | padding fills up to the next multiple with at least one byte, and each byte of it is their number |
| AesEcb.UnpadExactly | internal/weixin/client.go:1197-1224 | unpadding yields y from x if and only if x is the padded y, for every block size below 256 |
| AesEcb.EncryptAESECB | internal/weixin/client.go:1169-1180 | the padded plaintext goes through the cipher block by block |
| AesEcb.DecryptAESECB | internal/weixin/client.go:1182-1195 | the blocks come back, and the padding is checked |
| AesEcb.DecryptExactly | internal/weixin/client.go:1169-1195 | for any block permutation, decryption yields p if and only if the ciphertext is the encryption of p |
| AesEcb.EachBlock | internal/weixin/client.go:1169-1195 | encryption encrypts each block alone, decryption decrypts each block alone |
| AesEcb.EncryptedSize | internal/weixin/client.go:1226-1232 | the ciphertext has the announced size, longer than the plaintext by 1 to 16 bytes |
| SplitUrl.SplitURL | internal/param/param.go:63-83 | the pieces join to the input, one more than there are matches, and end at the cuts |
| SplitUrl.PieceBetweenCuts | internal/param/param.go:63-83 | each piece reaches from the cut before it to the cut behind it |
| SplitUrl.CutInside | internal/param/param.go:77 | a cut lies at two thirds of its match, rounded down, and inside it |
| SplitUrl.OneCutEach | internal/param/param.go:73-80 | a cut lies inside its own match and in no other one |

## Left out

- Memory: a stored count of at most 2^45 that exceeds the memory makes Go stop; the model goes on reading. Greater counts are panics in both. Storing requires that a value takes at most 2^45 bytes (`Storable`).
- A nil message given to an `Insert…` method (the methods read its key field and panic), and values outside the writer's type switch.
- The difference between a nil and an empty slice or map, which the format does not keep.
- The bytes of a global-ID key: `binary.ToBytes` is a function parameter, and no theorem assumes it to be injective.
- LevelDB itself is a map, and a store operation always succeeds; the SQLite and MongoDB backends and the fan-out in `db/multidb.go` are not part of this model.
- `ParseObject`, `MarshalJSON` (which writes types and keys unquoted) and `Element.Get`.
- Printing a text element without data, which indexes out of range: `Printable` excludes it.
- CqCode.ParseOneTag: the inner loops of `ParseString` are a method of their own; the outer loop calls it.
- Fairness of the scheduler in long polling: the theorems say which continuations exist, not which will be taken; a negative queue bound, with which the first push panics.
- The HTTP side of downloads: status codes, the size limit, and the plain download that is used for short content. `Payload` is what the body reads return. A failing write is the argument `failing`; the error of the last flush is dropped by the code, and a run in which a writer stops short (`EveryRunKeepsInv`) is what it leaves behind.
- Partition.PlanBlocks: watches the loop for a given number of turns, because it does not always end; the memory that the blocks of a long loop use up is not modelled.
- gjson's path lookup and regular expressions are parameters of the filter (`Env`), with no assumption about them; arrays and objects carry their raw text, which need not be a text of their parts.
- Contacts and client state: JSON text of the files (records are stored as they are, so invalid UTF-8 in strings is not replaced), file errors, the locks, and clocks, which are parameters. `mapWeixinID` takes its hash as a parameter. Without a store path nothing is saved; the theorems over runs are about runtimes that have one.
- Logins that are pending, message normalisation, media transfer and the QQ actions.
- AES, base64 and hexadecimal decoding of keys: a key becomes a block permutation or is refused.
- SplitUrl.SplitURL: computes the cut on reals; for matches shorter than 2^50 bytes the floating-point division of the code gives the same integer.
