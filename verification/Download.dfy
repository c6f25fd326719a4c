/** The multi-threaded range download: one block, and all writers together. */
module Download {
  import opened GoTypes
  import opened Partition

  // One block.

  datatype ReadError = NoError | EndOfFile | OtherError

  /** What one Read on the response body returned. */
  datatype Chunk = Chunk(data: Bytes, err: ReadError)

  /** The bytes a body supplies before it ends or fails; a failing read supplies none. */
  function Payload(body: seq<Chunk>): Bytes {
    if body == [] || body[0].err == OtherError then []
    else if body[0].err == EndOfFile then body[0].data
    else body[0].data + Payload(body[1..])
  }

  predicate EndsWell(body: seq<Chunk>) {
    body == [] || body[0].err == EndOfFile || (body[0].err == NoError && EndsWell(body[1..]))
  }

  /** Whether the writer of a block of the given size returns without an error. */
  predicate Succeeds(body: seq<Chunk>, size: nat) {
    |Payload(body)| >= size || EndsWell(body)
  }

  /** What a block of the given size takes from a body. */
  function Taken(body: seq<Chunk>, size: nat): Bytes {
    if |Payload(body)| < size then Payload(body) else Payload(body)[..size]
  }

  /** The body as it seems if the write of chunk `failing` returns an error. */
  function Cut(body: seq<Chunk>, failing: Option<nat>): seq<Chunk> {
    match failing
    case Some(0) => [Chunk([], OtherError)]
    case Some(k) => if body == [] then [] else [body[0]] + Cut(body[1..], Some(k - 1))
    case None => body
  }

  class BlockMetaData {
    var beginOffset: int
    var endOffset: int
    var downloadedSize: int

    constructor (block: Block)
      ensures beginOffset == block.begin && endOffset == block.end && downloadedSize == 0
    {
      beginOffset := block.begin;
      endOffset := block.end;
      downloadedSize := 0;
    }

    /** How many bytes the block still needs. */
    function Left(): int
      reads this
    {
      endOffset + 1 - beginOffset
    }

    /** Writes one chunk, or what is needed of it. */
    method Accept(c: Chunk) returns (piece: Bytes, finished: bool)
      requires Left() > 0
      modifies this
      ensures piece == c.data[..if |c.data| > old(Left()) then old(Left()) else |c.data|]
      ensures beginOffset == old(beginOffset) + |piece| && downloadedSize == old(downloadedSize) + |piece|
      ensures endOffset == old(endOffset)
      ensures finished <==> c.err == EndOfFile || |piece| == old(Left())
    {
      var err := c.err;
      var i64 := |c.data|;
      var needSize := endOffset + 1 - beginOffset;
      if i64 > needSize {
        i64 := needSize;
        err := EndOfFile;
      }
      piece := c.data[..i64];
      beginOffset := beginOffset + i64;
      downloadedSize := downloadedSize + i64;
      finished := err == EndOfFile || beginOffset > endOffset;
    }

    /**
     * Reads the body chunk by chunk; `out` is what goes to the file from the block's first byte on.
     * The writer may fail at one of the chunks.
     */
    method DownloadBlock(body: seq<Chunk>, failing: Option<nat>) returns (out: Bytes, ok: bool)
      requires Left() > 0
      modifies this
      ensures out == Taken(Cut(body, failing), old(Left()))
      ensures ok <==> Succeeds(Cut(body, failing), old(Left()))
      ensures beginOffset == old(beginOffset) + |out| && downloadedSize == old(downloadedSize) + |out|
      ensures endOffset == old(endOffset)
    {
      hide Taken, Succeeds, GoesOn, Cut;
      out := [];
      var rest, left := body, failing;
      ghost var seen, size := Cut(body, failing), Left();
      NothingTaken(seen);
      while true
        invariant beginOffset == old(beginOffset) + |out| && downloadedSize == old(downloadedSize) + |out|
        invariant endOffset == old(endOffset) && Left() == size - |out| > 0
        invariant GoesOn(seen, out, Cut(rest, left))
        decreases |rest|
      {
        // a body that has been read to its end goes on returning io.EOF
        var c := if rest == [] then Chunk([], EndOfFile) else rest[0];
        ChunkTaken(seen, out, Cut(rest, left), size);
        CutFirst(rest, left);
        if c.err == OtherError || left == Some(0) {
          return out, false;
        }
        var piece, finished := Accept(c);
        out := out + piece;
        if finished {
          return out, true;
        }
        rest := rest[1..];
        left := if left.Some? then Some(left.value - 1) else None;
      }
    }
  }

  function First(body: seq<Chunk>): Chunk {
    if body == [] then Chunk([], EndOfFile) else body[0]
  }

  /** What is read and written of the body. */
  lemma {:induction false} CutFirst(body: seq<Chunk>, failing: Option<nat>)
    ensures First(Cut(body, failing)).err == OtherError <==> failing == Some(0) || First(body).err == OtherError
    ensures failing != Some(0) ==> First(Cut(body, failing)) == First(body)
    ensures body != [] && failing != Some(0) ==>
              Cut(body, failing) != []
              && Cut(body, failing)[1..] == Cut(body[1..], if failing.Some? then Some(failing.value - 1) else None)
  {
  }

  /** Behind `out` the body goes on with `rest`. */
  predicate GoesOn(body: seq<Chunk>, out: Bytes, rest: seq<Chunk>) {
    Payload(body) == out + Payload(rest) && EndsWell(body) == EndsWell(rest)
  }

  lemma {:induction false} NothingTaken(body: seq<Chunk>)
    ensures GoesOn(body, [], body)
  {
  }

  /** What a chunk adds, and what the chunks behind it add. */
  lemma {:induction false} PayloadStep(body: seq<Chunk>) returns (tail: Bytes)
    ensures
      var c := First(body);
      match c.err
      case OtherError => Payload(body) == [] && !EndsWell(body)
      case EndOfFile => Payload(body) == c.data + tail && tail == [] && EndsWell(body)
      case NoError =>
        && body != [] && EndsWell(body) == EndsWell(body[1..])
        && Payload(body) == c.data + tail && tail == Payload(body[1..])
  {
    tail := if body == [] || body[0].err != NoError then [] else Payload(body[1..]);
  }

  /** Behind one chunk, and at most what the block still needs of it, the writer is through or goes on with the rest. */
  lemma {:induction false} ChunkTaken(body: seq<Chunk>, out: Bytes, rest: seq<Chunk>, size: nat)
    requires GoesOn(body, out, rest) && |out| < size
    ensures
      var c := First(rest);
      var need := size - |out|;
      var out' := out + c.data[..if |c.data| > need then need else |c.data|];
      if c.err == OtherError then out == Taken(body, size) && !Succeeds(body, size)
      else if c.err == EndOfFile || |c.data| >= need then out' == Taken(body, size) && Succeeds(body, size)
      else rest != [] && GoesOn(body, out', rest[1..])
  {
    var c, need := First(rest), size - |out|;
    var tail := PayloadStep(rest);
    hide Payload, EndsWell, Taken, Succeeds;
    if c.err == OtherError {
      TakenAll(body, out, [], size);
    } else if |c.data| >= need {
      assert out + (c.data + tail) == out + c.data[..need] + (c.data[need..] + tail);
      TakenPart(body, out + c.data[..need], size);
    } else {
      assert c.data[..|c.data|] == c.data;
      assert out + (c.data + tail) == out + c.data + tail;
      if c.err == EndOfFile {
        TakenAll(body, out + c.data, tail, size);
      }
    }
  }

  lemma {:induction false} TakenAll(body: seq<Chunk>, out: Bytes, tail: Bytes, size: nat)
    requires Payload(body) == out + tail && tail == [] && |out| < size
    ensures Taken(body, size) == out && (Succeeds(body, size) <==> EndsWell(body))
  {
    hide Payload, EndsWell;
  }

  lemma {:induction false} TakenPart(body: seq<Chunk>, out: Bytes, size: nat)
    requires out <= Payload(body) && |out| == size
    ensures Taken(body, size) == out && Succeeds(body, size)
  {
    hide Payload, EndsWell;
  }

  function Data(chunks: seq<Chunk>): Bytes {
    if chunks == [] then [] else chunks[0].data + Data(chunks[1..])
  }

  /** A body supplies all bytes up to its end, those read together with the end too, but none read with an error. */
  lemma {:induction false} PayloadExactly(good: seq<Chunk>, rest: seq<Chunk>)
    requires forall i :: 0 <= i < |good| ==> good[i].err == NoError
    requires rest == [] || rest[0].err != NoError
    ensures
      var body := good + rest;
      if rest == [] then Payload(body) == Data(good) && EndsWell(body)
      else if rest[0].err == EndOfFile then Payload(body) == Data(good) + rest[0].data && EndsWell(body)
      else Payload(body) == Data(good) && !EndsWell(body)
  {
    if good == [] {
      assert good + rest == rest;
      LastChunk(rest);
    } else {
      assert good + rest == [good[0]] + (good[1..] + rest);
      assert good == [good[0]] + good[1..];
      GoodChunk(good[0], good[1..] + rest, good[1..]);
      PayloadExactly(good[1..], rest);
      hide *;
      if rest != [] && rest[0].err == EndOfFile {
        assert good[0].data + (Data(good[1..]) + rest[0].data) == good[0].data + Data(good[1..]) + rest[0].data;
      }
    }
  }

  lemma {:induction false} LastChunk(rest: seq<Chunk>)
    requires rest == [] || rest[0].err != NoError
    ensures Data([]) == []
    ensures Payload(rest) == if rest != [] && rest[0].err == EndOfFile then [] + rest[0].data else []
    ensures EndsWell(rest) <==> rest == [] || rest[0].err == EndOfFile
  {
  }

  lemma {:induction false} GoodChunk(c: Chunk, body: seq<Chunk>, good: seq<Chunk>)
    requires c.err == NoError
    ensures Payload([c] + body) == c.data + Payload(body) && EndsWell([c] + body) == EndsWell(body)
    ensures Data([c] + good) == c.data + Data(good)
  {
    assert ([c] + body)[1..] == body && ([c] + good)[1..] == good;
  }

  /** A failing write makes a block take less, and nothing else. */
  lemma {:induction false} CutTakesLess(body: seq<Chunk>, failing: Option<nat>, size: nat)
    ensures Payload(Cut(body, failing)) <= Payload(body)
    ensures Taken(Cut(body, failing), size) <= Taken(body, size)
  {
    if failing.Some? && failing.value > 0 && body != [] && body[0].err == NoError {
      CutTakesLess(body[1..], Some(failing.value - 1), size);
    }
    assert Payload(Cut(body, failing)) <= Payload(body);
    hide Payload, Cut;
  }

  // All writers together.

  /** Writing at an offset; a gap behind the end of the file reads as zeros. */
  function WriteAt(file: Bytes, off: nat, data: Bytes): Bytes {
    if data == [] then file
    else if off >= |file| then file + seq(off - |file|, _ => 0) + data
    else file[..off] + data + (if off + |data| < |file| then file[off + |data|..] else [])
  }

  lemma {:induction false} WriteAtBytes(file: Bytes, off: nat, data: Bytes)
    ensures
      var f := WriteAt(file, off, data);
      && |f| == (if data == [] || off + |data| < |file| then |file| else off + |data|)
      && (forall p: nat :: off <= p < off + |data| ==> f[p] == data[p - off])
      && (forall p: nat :: p < |f| && !(off <= p < off + |data|) ==> f[p] == if p < |file| then file[p] else 0)
  {
  }

  /** The job: what the path held before, the blocks, and what each writer sends to its block. */
  datatype Job = Job(original: Bytes, blocks: seq<Block>, length: nat, streams: seq<Bytes>) {
    ghost predicate Valid() {
      && Tiles(blocks, length) && |streams| == |blocks|
      && forall j :: 0 <= j < |blocks| ==> |streams[j]| <= blocks[j].Size()
    }
  }

  /** The file, and how far each writer has come. */
  datatype State = State(file: Bytes, written: seq<nat>)

  /** Writer j passes its next n bytes on to the file. */
  datatype Flush = Flush(j: nat, n: nat)

  function Init(job: Job): State {
    State(job.original, seq(|job.blocks|, _ => 0))
  }

  predicate Enabled(job: Job, s: State, a: Flush) {
    && a.j < |job.blocks| == |job.streams| == |s.written|
    && s.written[a.j] + a.n <= |job.streams[a.j]|
  }

  function Step(job: Job, s: State, a: Flush): State
    requires Enabled(job, s, a)
  {
    var from := s.written[a.j];
    State(WriteAt(s.file, job.blocks[a.j].begin + from, job.streams[a.j][from..from + a.n]),
          s.written[a.j := from + a.n])
  }

  function Run(job: Job, actions: seq<Flush>): Option<State> {
    if actions == [] then Some(Init(job))
    else
      match Run(job, actions[..|actions| - 1])
      case None => None
      case Some(s) =>
        if Enabled(job, s, actions[|actions| - 1]) then Some(Step(job, s, actions[|actions| - 1])) else None
  }

  /** Writer j has written offset p. */
  predicate Reached(job: Job, s: State, j: nat, p: nat) {
    j < |job.blocks| && j < |s.written| && job.blocks[j].begin <= p < job.blocks[j].begin + s.written[j]
  }

  /** What was at p before: the old byte, or a zero. */
  function Before(job: Job, p: nat): Byte {
    if p < |job.original| then job.original[p] else 0
  }

  ghost predicate LengthsOk(job: Job, s: State) {
    && |s.written| == |job.blocks| == |job.streams|
    && (forall j :: 0 <= j < |s.written| ==> s.written[j] <= |job.streams[j]|)
    && |job.original| <= |s.file| && (|s.file| <= |job.original| || |s.file| <= job.length)
  }

  /** What writer j has written at p is there. */
  ghost predicate Arrived(job: Job, s: State, j: nat, p: nat)
    requires LengthsOk(job, s)
  {
    Reached(job, s, j, p) ==> p < |s.file| && s.file[p] == job.streams[j][p - job.blocks[j].begin]
  }

  /** What nobody has written is as before. */
  ghost predicate Untouched(job: Job, s: State, p: nat) {
    p < |s.file| && (forall j: nat :: !Reached(job, s, j, p)) ==> s.file[p] == Before(job, p)
  }

  /** The file is determined by how far the writers have come, not by their interleaving. */
  ghost predicate Inv(job: Job, s: State) {
    && LengthsOk(job, s)
    && (forall j: nat, p: nat :: Arrived(job, s, j, p))
    && forall p: nat :: Untouched(job, s, p)
  }

  /** Two writers never meet. */
  lemma {:induction false} WritersApart(job: Job, i: nat, j: nat, p: nat)
    requires job.Valid() && i < |job.blocks| && j < |job.blocks|
    requires job.blocks[i].Has(p) && job.blocks[j].Has(p)
    ensures i == j
  {
    OneBlockEach(job.blocks, job.length, p);
  }

  lemma {:induction false} StepKeepsLengths(job: Job, s: State, a: Flush)
    requires job.Valid() && LengthsOk(job, s) && Enabled(job, s, a)
    ensures LengthsOk(job, Step(job, s, a))
  {
    hide Tiles, WriteAt;
    var from := s.written[a.j];
    WriteAtBytes(s.file, job.blocks[a.j].begin + from, job.streams[a.j][from..from + a.n]);
    InOrder(job.blocks, job.length);
  }

  lemma {:induction false} StepKeepsArrived(job: Job, s: State, a: Flush, j: nat, p: nat)
    requires job.Valid() && LengthsOk(job, s) && Enabled(job, s, a) && LengthsOk(job, Step(job, s, a))
    requires Arrived(job, s, j, p)
    ensures Arrived(job, Step(job, s, a), j, p)
  {
    hide Tiles, WriteAt;
    var from := s.written[a.j];
    var off := job.blocks[a.j].begin + from;
    WriteAtBytes(s.file, off, job.streams[a.j][from..from + a.n]);
    if off <= p < off + a.n && Reached(job, Step(job, s, a), j, p) {
      WritersApart(job, j, a.j, p);
    }
  }

  lemma {:induction false} StepKeepsUntouched(job: Job, s: State, a: Flush, p: nat)
    requires job.Valid() && LengthsOk(job, s) && Enabled(job, s, a)
    requires Untouched(job, s, p)
    ensures Untouched(job, Step(job, s, a), p)
  {
    hide Tiles, WriteAt;
    var from := s.written[a.j];
    var t := Step(job, s, a);
    WriteAtBytes(s.file, job.blocks[a.j].begin + from, job.streams[a.j][from..from + a.n]);
    if p < |t.file| && forall j: nat :: !Reached(job, t, j, p) {
      assert !Reached(job, t, a.j, p);
      forall j: nat ensures !Reached(job, s, j, p) {
        assert !Reached(job, t, j, p);
      }
    }
  }

  lemma {:induction false} StepKeepsInv(job: Job, s: State, a: Flush)
    requires job.Valid() && Inv(job, s) && Enabled(job, s, a)
    ensures Inv(job, Step(job, s, a))
  {
    hide Step, Enabled, LengthsOk, Arrived, Untouched, Job.Valid;
    StepKeepsLengths(job, s, a);
    forall j: nat, p: nat ensures Arrived(job, Step(job, s, a), j, p) {
      StepKeepsArrived(job, s, a, j, p);
    }
    forall p: nat ensures Untouched(job, Step(job, s, a), p) {
      StepKeepsUntouched(job, s, a, p);
    }
  }

  lemma {:induction false} EveryRunKeepsInv(job: Job, actions: seq<Flush>)
    requires job.Valid()
    ensures Run(job, actions).Some? ==> Inv(job, Run(job, actions).value)
  {
    if actions != [] {
      EveryRunKeepsInv(job, actions[..|actions| - 1]);
      if Run(job, actions).Some? {
        StepKeepsInv(job, Run(job, actions[..|actions| - 1]).value, actions[|actions| - 1]);
      }
    }
  }

  /** No writer touches a byte outside the blocks, whatever the responses hold. */
  lemma {:induction false} NothingOutsideBlocks(job: Job, actions: seq<Flush>, p: nat)
    requires job.Valid() && Run(job, actions).Some? && p >= job.length
    ensures var file := Run(job, actions).value.file;
            p < |file| <==> p < |job.original|
    ensures var file := Run(job, actions).value.file;
            p < |file| ==> file[p] == job.original[p]
  {
    EveryRunKeepsInv(job, actions);
    var s := Run(job, actions).value;
    forall j: nat ensures !Reached(job, s, j, p) {
      if j < |job.blocks| {
        InOrder(job.blocks, job.length);
      }
    }
    assert Untouched(job, s, p);
  }

  /** Every writer has passed on all it had. */
  predicate Through(job: Job, s: State) {
    |s.written| == |job.streams| && forall j :: 0 <= j < |job.streams| ==> s.written[j] == |job.streams[j]|
  }

  /** Every job can be finished: the writers pass on what they have, one after the other. */
  lemma {:induction false} CanFinish(job: Job, n: nat) returns (actions: seq<Flush>)
    requires |job.streams| == |job.blocks| && n <= |job.blocks|
    ensures
      && Run(job, actions).Some?
      && var s := Run(job, actions).value;
      && |s.written| == |job.blocks|
      && forall j :: 0 <= j < |job.blocks| ==> s.written[j] == if j < n then |job.streams[j]| else 0
  {
    if n == 0 {
      actions := [];
    } else {
      var front := CanFinish(job, n - 1);
      var a := Flush(n - 1, |job.streams[n - 1]|);
      actions := front + [a];
      assert actions[..|actions| - 1] == front;
      WholeFlush(job, Run(job, front).value, a);
      hide Step, Enabled;
    }
  }

  lemma {:induction false} WholeFlush(job: Job, s: State, a: Flush)
    requires a.j < |job.blocks| && |job.streams| == |job.blocks| && |s.written| == |job.blocks|
    requires s.written[a.j] == 0 && a.n == |job.streams[a.j]|
    ensures Enabled(job, s, a) && Step(job, s, a).written == s.written[a.j := a.n]
  {
    hide WriteAt;
  }

  /** The file ends where it ended before, or with a byte that some writer has written. */
  ghost predicate EndReached(job: Job, s: State) {
    |s.file| == |job.original| || exists j: nat :: EndsWith(job, s, j)
  }

  predicate EndsWith(job: Job, s: State, j: nat) {
    s.file != [] && Reached(job, s, j, |s.file| - 1)
  }

  lemma {:induction false} StepKeepsEnd(job: Job, s: State, a: Flush)
    requires job.Valid() && LengthsOk(job, s) && Enabled(job, s, a) && EndReached(job, s)
    ensures EndReached(job, Step(job, s, a))
  {
    hide Tiles, WriteAt;
    var from := s.written[a.j];
    var t := Step(job, s, a);
    WriteAtBytes(s.file, job.blocks[a.j].begin + from, job.streams[a.j][from..from + a.n]);
    if |t.file| > |s.file| {
      assert EndsWith(job, t, a.j);
    } else if j: nat :| EndsWith(job, s, j) {
      assert EndsWith(job, t, j);
    }
  }

  lemma {:induction false} EveryRunKeepsEnd(job: Job, actions: seq<Flush>)
    requires job.Valid()
    ensures Run(job, actions).Some? ==> EndReached(job, Run(job, actions).value)
  {
    hide EndReached, Step, Enabled, Inv;
    if actions == [] {
      assert EndReached(job, Init(job)) by {
        StartReached(job);
      }
    } else {
      var front := actions[..|actions| - 1];
      EveryRunKeepsEnd(job, front);
      EveryRunKeepsInv(job, front);
      if Run(job, actions).Some? {
        InvLengths(job, Run(job, front).value);
        StepKeepsEnd(job, Run(job, front).value, actions[|actions| - 1]);
      }
    }
  }

  lemma {:induction false} StartReached(job: Job)
    ensures EndReached(job, Init(job))
  {
  }

  lemma {:induction false} InvLengths(job: Job, s: State)
    requires Inv(job, s)
    ensures LengthsOk(job, s)
  {
  }

  /** Byte k of block j is right: it was supplied, or it had been there before. */
  predicate RightByte(job: Job, j: nat, k: nat, source: Bytes)
    requires j < |job.blocks| == |job.streams| && job.blocks[j].begin + k < |source|
  {
    source[job.blocks[j].begin + k] ==
    if k < |job.streams[j]| then job.streams[j][k] else Before(job, job.blocks[j].begin + k)
  }

  ghost predicate AllRight(job: Job, source: Bytes)
    requires |job.blocks| == |job.streams|
  {
    forall j: nat, k: nat :: j < |job.blocks| && k < job.blocks[j].Size() ==>
      job.blocks[j].begin + k < |source| && RightByte(job, j, k, source)
  }

  /** The path held as many bytes before, or the last block was supplied to its end. */
  predicate LongEnough(job: Job)
    requires |job.blocks| == |job.streams|
  {
    || |job.original| >= job.length
    || (job.blocks != [] && |job.streams[|job.streams| - 1]| == job.blocks[|job.blocks| - 1].Size())
  }

  /**
   * Once every writer is through, in whatever order they took turns, the file begins with the source exactly
   * if it is long enough and every byte of every block was supplied right or had been right before.
   */
  lemma {:induction false} FileExactly(job: Job, actions: seq<Flush>, source: Bytes)
    requires job.Valid() && |source| == job.length
    requires Run(job, actions).Some? && Through(job, Run(job, actions).value)
    ensures
      source <= Run(job, actions).value.file <==> LongEnough(job) && AllRight(job, source)
  {
    var s := Run(job, actions).value;
    EveryRunKeepsInv(job, actions);
    EveryRunKeepsEnd(job, actions);
    hide Run, Inv, EndReached, Through, LongEnough, AllRight, Job.Valid;
    FileLength(job, s);
    if source <= s.file {
      RightIfThere(job, s, source);
    }
    if LongEnough(job) && AllRight(job, source) {
      ThereIfRight(job, s, source);
    }
  }

  lemma {:induction false} RightIfThere(job: Job, s: State, source: Bytes)
    requires job.Valid() && Inv(job, s) && Through(job, s) && |source| == job.length && source <= s.file
    ensures AllRight(job, source)
  {
    InOrder(job.blocks, job.length);
    hide Tiles, Inv, Through, Before;
    forall j: nat, k: nat | j < |job.blocks| && k < job.blocks[j].Size()
      ensures job.blocks[j].begin + k < |source| && RightByte(job, j, k, source)
    {
      FinalByte(job, s, j, job.blocks[j].begin + k);
    }
  }

  lemma {:induction false} ThereIfRight(job: Job, s: State, source: Bytes)
    requires job.Valid() && Inv(job, s) && Through(job, s) && |source| == job.length <= |s.file|
    requires AllRight(job, source)
    ensures source <= s.file
  {
    InOrder(job.blocks, job.length);
    hide Tiles, Inv, Through, Before;
    forall p: nat | p < |source| ensures s.file[p] == source[p] {
      OneBlockEach(job.blocks, job.length, p);
      var j: nat :| j < |job.blocks| && job.blocks[j].Has(p);
      FinalByte(job, s, j, p);
      assert RightByte(job, j, p - job.blocks[j].begin, source);
    }
    assert s.file[..|source|] == source;
  }

  lemma {:induction false} FileLength(job: Job, s: State)
    requires job.Valid() && Inv(job, s) && EndReached(job, s) && Through(job, s)
    ensures |s.file| >= job.length <==> LongEnough(job)
  {
    InOrder(job.blocks, job.length);
    if job.blocks != [] {
      var k := |job.blocks| - 1;
      var end := job.length - 1;
      if |job.streams[k]| == job.blocks[k].Size() {
        assert Reached(job, s, k, end) && Arrived(job, s, k, end);
      }
      if |job.original| < job.length <= |s.file| {
        var j: nat :| EndsWith(job, s, j);
        assert job.blocks[j].begin + s.written[j] <= job.blocks[j].end + 1;
      }
    }
  }

  /** What stands at an offset in the end. */
  lemma {:induction false} FinalByte(job: Job, s: State, j: nat, p: nat)
    requires job.Valid() && Inv(job, s) && Through(job, s)
    requires j < |job.blocks| && job.blocks[j].Has(p) && p < |s.file|
    ensures
      var k := p - job.blocks[j].begin;
      s.file[p] == if k < |job.streams[j]| then job.streams[j][k] else Before(job, p)
  {
    hide Tiles, Before;
    if p - job.blocks[j].begin < |job.streams[j]| {
      assert Reached(job, s, j, p) && Arrived(job, s, j, p);
    } else {
      forall i: nat ensures !Reached(job, s, i, p) {
        if Reached(job, s, i, p) {
          WritersApart(job, i, j, p);
        }
      }
      assert Untouched(job, s, p);
    }
  }

  /** Every writer is through, and every response supplied the whole range from the source. */
  predicate Complete(job: Job, s: State, source: Bytes) {
    && |source| == job.length && |s.written| == |job.blocks| == |job.streams|
    && forall j :: 0 <= j < |job.blocks| ==>
         && job.blocks[j].begin <= job.blocks[j].end < |source|
         && s.written[j] == |job.streams[j]|
         && job.streams[j] == source[job.blocks[j].begin..job.blocks[j].end + 1]
  }

  /** The job of a download: every block sends on what it takes from its own response. */
  function DownloadJob(original: Bytes, blocks: seq<Block>, length: nat, bodies: seq<seq<Chunk>>): Job
    requires Tiles(blocks, length) && |bodies| == |blocks|
  {
    Job(original, blocks, length, seq(|blocks|, j requires 0 <= j < |blocks| => Taken(bodies[j], blocks[j].Size())))
  }

  /** Every response supplies at least the range its block asked for. */
  ghost predicate Supplied(blocks: seq<Block>, bodies: seq<seq<Chunk>>, source: Bytes)
    requires |bodies| == |blocks|
  {
    forall j :: 0 <= j < |blocks| ==>
      blocks[j].begin <= blocks[j].end < |source| && source[blocks[j].begin..blocks[j].end + 1] <= Payload(bodies[j])
  }

  /** What the blocks take is the source exactly if every response supplies its range. */
  lemma {:induction false} RangesTakenExactly(
    original: Bytes, blocks: seq<Block>, bodies: seq<seq<Chunk>>, source: Bytes)
    requires Tiles(blocks, |source|) && |bodies| == |blocks|
    ensures
      var job := DownloadJob(original, blocks, |source|, bodies);
      (forall j :: 0 <= j < |blocks| ==>
         && blocks[j].begin <= blocks[j].end < |source|
         && job.streams[j] == source[blocks[j].begin..blocks[j].end + 1])
      <==> Supplied(blocks, bodies, source)
  {
    var job := DownloadJob(original, blocks, |source|, bodies);
    hide Payload;
    forall j | 0 <= j < |blocks|
      ensures
        && blocks[j].begin <= blocks[j].end < |source|
        && var part := source[blocks[j].begin..blocks[j].end + 1];
        job.streams[j] == part <==> part <= Payload(bodies[j])
    {
      InOrder(blocks, |source|);
      TakenWhole(bodies[j], source[blocks[j].begin..blocks[j].end + 1]);
    }
  }

  lemma {:induction false} TakenWhole(body: seq<Chunk>, part: Bytes)
    ensures Taken(body, |part|) == part <==> part <= Payload(body)
  {
    hide Payload;
  }

  /** A body that ends too early is reported as a success: every block succeeds, and nothing has arrived. */
  lemma {:induction false} SuccessIsNotDelivery(b: Byte)
    ensures
      var blocks, bodies, source := [Range(0, 0)], [[Chunk([], EndOfFile)]], [b];
      && Tiles(blocks, |source|) && Succeeds(bodies[0], blocks[0].Size()) && !Supplied(blocks, bodies, source)
      && var r := Run(DownloadJob([], blocks, |source|, bodies), []);
      r.Some? && r.value.written == [|Taken(bodies[0], 1)|] && r.value.file == []
  {
    var blocks, bodies, source := [Range(0, 0)], [[Chunk([], EndOfFile)]], [b];
    assert Payload(bodies[0]) == [];
    assert source[0..1] == [b];
    assert seq(1, _ => 0) == [0];
  }

  /**
   * If every response supplies its range and every writer gets through, in whatever order they take turns,
   * the file begins with the source; it is the source exactly if the path did not hold a longer file before.
   */
  lemma {:induction false} DownloadDelivers(
    original: Bytes, blocks: seq<Block>, bodies: seq<seq<Chunk>>, actions: seq<Flush>, source: Bytes)
    requires Tiles(blocks, |source|) && |bodies| == |blocks| && Supplied(blocks, bodies, source)
    requires
      var job := DownloadJob(original, blocks, |source|, bodies);
      && Run(job, actions).Some?
      && |Run(job, actions).value.written| == |blocks|
      && forall j :: 0 <= j < |blocks| ==> Run(job, actions).value.written[j] == |job.streams[j]|
    ensures
      var file := Run(DownloadJob(original, blocks, |source|, bodies), actions).value.file;
      source <= file && (file == source <==> |original| <= |source|)
  {
    var job := DownloadJob(original, blocks, |source|, bodies);
    hide Payload, Tiles, Run, Supplied;
    RangesTakenExactly(original, blocks, bodies, source);
    SourceArrives(job, actions, source);
  }

  /** After any interleaving the file begins with the source; the file is opened without truncation. */
  lemma {:induction false} SourceArrives(job: Job, actions: seq<Flush>, source: Bytes)
    requires job.Valid() && Run(job, actions).Some?
    requires Complete(job, Run(job, actions).value, source)
    ensures source <= Run(job, actions).value.file
    ensures Run(job, actions).value.file == source <==> |job.original| <= |source|
  {
    EveryRunKeepsInv(job, actions);
    var s := Run(job, actions).value;
    hide Run, Reached, Before, Tiles;
    forall p | 0 <= p < |source| ensures p < |s.file| && s.file[p] == source[p] {
      ByteArrives(job, s, source, p);
    }
    if |source| > 0 {
      ByteArrives(job, s, source, |source| - 1);
    }
    assert |source| <= |s.file|;
    assert s.file[..|source|] == source;
    if |s.file| == |source| {
      assert s.file[..|source|] == s.file;
    }
  }

  lemma {:induction false} ByteArrives(job: Job, s: State, source: Bytes, p: nat)
    requires job.Valid() && Inv(job, s) && Complete(job, s, source) && p < |source|
    ensures p < |s.file| && s.file[p] == source[p]
  {
    OneBlockEach(job.blocks, job.length, p);
    var j :| 0 <= j < |job.blocks| && job.blocks[j].Has(p);
    hide Tiles;
    assert Reached(job, s, j, p) && Arrived(job, s, j, p);
  }
}
