/** The partition of a download into byte ranges, in the wrapping 64-bit arithmetic of the program. */
module Partition {
  import opened GoTypes
  import opened WordArithmetic

  const SINGLE_LIMIT: int := 1024 * 1024

  /** An inclusive byte range, as in section 14.1.2 of RFC 9110. */
  datatype Range = Range(begin: int, end: int) {
    function Size(): int {
      end + 1 - begin
    }

    predicate Has(p: nat) {
      begin <= p <= end
    }
  }

  /** What a writer can be sent to. */
  type Block = r: Range | 0 <= r.begin witness Range(0, 0)

  /** The length is -1 if the response does not tell it. */
  function BlockSize(contentLength: I64, thread: nat): (b: I64)
    requires thread >= 2
    ensures contentLength > SINGLE_LIMIT ==> -10 <= b <= contentLength / 2
  {
    if contentLength > SINGLE_LIMIT then
      SmallShare(contentLength, thread);
      contentLength / thread - 10
    else contentLength
  }

  lemma {:induction false} SmallShare(contentLength: nat, thread: nat)
    requires thread >= 2
    ensures 0 <= contentLength / thread <= contentLength / 2
  {
    var q := contentLength / thread;
    assert q * thread <= contentLength;
    assert q * 2 <= q * thread;
  }

  /** The size is ten bytes less than the share of a thread, rounded down; short content has one block. */
  lemma {:induction false} BlockSizeExactly(contentLength: I64, thread: nat)
    requires thread >= 2
    ensures
      var b := BlockSize(contentLength, thread);
      if contentLength > 1048576 then (b + 10) * thread <= contentLength < (b + 11) * thread else b == contentLength
  {
    if contentLength > 1048576 {
      var q := contentLength / thread;
      assert contentLength == q * thread + contentLength % thread;
      assert (q + 1) * thread == q * thread + thread;
    }
  }

  /** The value of the loop variable after n turns. */
  function Place(contentLength: I64, thread: nat, n: nat): I64
    requires thread >= 2
  {
    ToI64(n * BlockSize(contentLength, thread))
  }

  /** Whether the guard of the loop holds after n turns. */
  predicate LoopGoesOn(contentLength: I64, thread: nat, n: nat)
    requires thread >= 2
  {
    ToI64(Place(contentLength, thread, n) + BlockSize(contentLength, thread)) < contentLength
  }

  /** The loop takes exactly n turns. */
  predicate EndsAfter(contentLength: I64, thread: nat, n: nat)
    requires thread >= 2
  {
    && !LoopGoesOn(contentLength, thread, n)
    && forall m: nat :: m < n ==> LoopGoesOn(contentLength, thread, m)
  }

  /** One block for each turn, and one for the rest. */
  function Blocks(contentLength: I64, thread: nat, turns: nat): seq<Range>
    requires thread >= 2
  {
    var b := BlockSize(contentLength, thread);
    seq(turns, i requires 0 <= i =>
      Range(Place(contentLength, thread, i), ToI64(Place(contentLength, thread, i) + b - 1)))
    + [Range(Place(contentLength, thread, turns), contentLength - 1)]
  }

  /**
   * The blocks of a download; none if the response is written to the file directly. The loop is watched
   * for a number of turns, and None says that it has not ended by then.
   */
  method PlanBlocks(contentLength: I64, thread: nat, turns: nat) returns (plan: Option<seq<Range>>)
    requires thread >= 2
    ensures contentLength <= SINGLE_LIMIT ==> plan == Some([])
    ensures contentLength > SINGLE_LIMIT ==>
              match plan
              case None => forall n: nat :: n <= turns ==> LoopGoesOn(contentLength, thread, n)
              case Some(blocks) => exists n: nat ::
                EndsAfter(contentLength, thread, n) && n <= turns && blocks == Blocks(contentLength, thread, n)
  {
    var blocks: seq<Range> := [];
    var blockSize := contentLength;
    if contentLength > SINGLE_LIMIT {
      SmallShare(contentLength, thread);
      blockSize := contentLength / thread - 10;
    }
    if blockSize == contentLength {
      return Some([]);
    }
    var tmp: I64, n: nat := 0, 0;
    hide Blocks, LoopGoesOn, Place;
    FirstTurn(contentLength, thread);
    while ToI64(tmp + blockSize) < contentLength
      invariant n <= turns && tmp == Place(contentLength, thread, n)
      invariant blocks + [Range(tmp, contentLength - 1)] == Blocks(contentLength, thread, n)
      invariant forall m: nat :: m < n ==> LoopGoesOn(contentLength, thread, m)
      decreases turns - n
    {
      NextTurn(contentLength, thread, n);
      if n == turns {
        return None;
      }
      MoreBlocks(contentLength, thread, blocks, n);
      blocks := blocks + [Range(tmp, ToI64(tmp + blockSize - 1))];
      tmp := ToI64(tmp + blockSize);
      n := n + 1;
    }
    NextTurn(contentLength, thread, n);
    plan := Some(blocks + [Range(tmp, contentLength - 1)]);
  }

  lemma {:induction false} FirstTurn(contentLength: I64, thread: nat)
    requires thread >= 2
    ensures Place(contentLength, thread, 0) == 0
    ensures Blocks(contentLength, thread, 0) == [] + [Range(0, contentLength - 1)]
  {
  }

  lemma {:induction false} NextTurn(contentLength: I64, thread: nat, n: nat)
    requires thread >= 2
    ensures
      var next := ToI64(Place(contentLength, thread, n) + BlockSize(contentLength, thread));
      next == Place(contentLength, thread, n + 1) && (LoopGoesOn(contentLength, thread, n) <==> next < contentLength)
  {
    var b := BlockSize(contentLength, thread);
    WrapAdd(n * b, b);
    assert (n + 1) * b == n * b + b;
  }

  lemma {:induction false} MoreBlocks(contentLength: I64, thread: nat, blocks: seq<Range>, n: nat)
    requires thread >= 2
    requires blocks + [Range(Place(contentLength, thread, n), contentLength - 1)] == Blocks(contentLength, thread, n)
    ensures
      var tmp, next := Place(contentLength, thread, n), Place(contentLength, thread, n + 1);
      blocks + [Range(tmp, ToI64(tmp + BlockSize(contentLength, thread) - 1))] + [Range(next, contentLength - 1)]
      == Blocks(contentLength, thread, n + 1)
  {
    hide Place, ToI64;
    var now := Blocks(contentLength, thread, n);
    assert blocks == now[..n];
  }

  // When the blocks are a partition.

  /** Contiguous nonempty blocks from 0 up to n. */
  predicate Tiles(blocks: seq<Range>, n: nat) {
    && (forall i :: 0 <= i < |blocks| ==> 0 <= blocks[i].begin <= blocks[i].end)
    && (forall i :: 0 < i < |blocks| ==> blocks[i].begin == blocks[i - 1].end + 1)
    && if blocks == [] then n == 0 else blocks[0].begin == 0 && blocks[|blocks| - 1].end + 1 == n
  }

  /** How many blocks the content needs. */
  function Needed(contentLength: nat, b: nat): (m: nat)
    requires b >= 1
    ensures (m - 1) * b < contentLength <= m * b
  {
    var m := (contentLength + b - 1) / b;
    assert m * b + (contentLength + b - 1) % b == contentLength + b - 1;
    assert (m - 1) * b == m * b - b;
    m
  }

  /** There is a block size, and its first multiple not below the content length is a 64-bit word. */
  predicate Fits(contentLength: I64, thread: nat)
    requires thread >= 2 && contentLength > SINGLE_LIMIT
  {
    var b := BlockSize(contentLength, thread);
    b >= 1 && Needed(contentLength, b) * b < TWO_63
  }

  lemma {:induction false} Unwrapped(x: int)
    ensures -TWO_63 <= x < TWO_63 ==> ToI64(x) == x
    ensures TWO_63 <= x < TWO_63 + TWO_63 ==> ToI64(x) == x - TWO_64
  {
  }

  /** Before the last block nothing wraps. */
  lemma {:induction false} Early(contentLength: I64, thread: nat, n: nat)
    requires thread >= 2 && contentLength > SINGLE_LIMIT && BlockSize(contentLength, thread) >= 1
    requires n + 1 < Needed(contentLength, BlockSize(contentLength, thread))
    ensures LoopGoesOn(contentLength, thread, n)
    ensures 0 <= Place(contentLength, thread, n) < contentLength
    ensures Place(contentLength, thread, n + 1)
         == Place(contentLength, thread, n) + BlockSize(contentLength, thread) < contentLength
  {
    var b := BlockSize(contentLength, thread);
    NextTurn(contentLength, thread, n);
    Multiples(n, Needed(contentLength, b), b, contentLength);
    hide BlockSize, LoopGoesOn, Needed, ToI64;
    Unwrapped(n * b);
    Unwrapped((n + 1) * b);
  }

  lemma {:induction false} Multiples(n: nat, m: nat, b: nat, c: int)
    requires n + 1 < m && (m - 1) * b < c
    ensures 0 <= n * b && (n + 1) * b == n * b + b && (n + 1) * b < c
  {
    ProductGrows(b, n + 1, m - 1);
  }

  lemma {:induction false} MultipleStep(n: nat, b: nat)
    ensures (n + 1) * b == n * b + b && n * b >= 0
  {
  }

  /** At the last block the next multiple either ends the loop or wraps. */
  lemma {:induction false} Last(contentLength: I64, thread: nat, n: nat)
    requires thread >= 2 && contentLength > SINGLE_LIMIT && BlockSize(contentLength, thread) >= 1
    requires n + 1 == Needed(contentLength, BlockSize(contentLength, thread))
    ensures 0 <= Place(contentLength, thread, n) < contentLength
    ensures contentLength - Place(contentLength, thread, n) <= BlockSize(contentLength, thread)
    ensures LoopGoesOn(contentLength, thread, n) <==> !Fits(contentLength, thread)
    ensures !Fits(contentLength, thread) ==> Place(contentLength, thread, n + 1) < 0
  {
    var b := BlockSize(contentLength, thread);
    NextTurn(contentLength, thread, n);
    hide BlockSize, LoopGoesOn, Needed, ToI64;
    MultipleStep(n, b);
    Unwrapped(n * b);
    Unwrapped((n + 1) * b);
  }

  lemma {:induction false} FitsEnds(contentLength: I64, thread: nat)
    requires thread >= 2 && contentLength > SINGLE_LIMIT && Fits(contentLength, thread)
    ensures EndsAfter(contentLength, thread, Needed(contentLength, BlockSize(contentLength, thread)) - 1)
  {
    hide LoopGoesOn, Place, Needed;
    var m := Needed(contentLength, BlockSize(contentLength, thread));
    Last(contentLength, thread, m - 1);
    forall k: nat | k < m - 1 ensures LoopGoesOn(contentLength, thread, k) {
      Early(contentLength, thread, k);
    }
  }

  /** Whenever the loop ends, what it has planned is a partition exactly if the block size fits. */
  lemma {:induction false} PlanTilesExactly(contentLength: I64, thread: nat, n: nat)
    requires thread >= 2 && contentLength > SINGLE_LIMIT && EndsAfter(contentLength, thread, n)
    ensures Tiles(Blocks(contentLength, thread, n), contentLength) <==> Fits(contentLength, thread)
    ensures Fits(contentLength, thread) ==>
              forall i: nat :: i <= n ==> Blocks(contentLength, thread, n)[i].Size() <= BlockSize(contentLength, thread)
  {
    hide LoopGoesOn, Place, Needed, Blocks, Tiles, Fits;
    if Fits(contentLength, thread) {
      TilesIfFits(contentLength, thread, n);
    } else if BlockSize(contentLength, thread) >= 1 {
      BrokenByWrap(contentLength, thread, n);
    } else {
      BrokenBackwards(contentLength, thread, n);
    }
  }

  lemma {:induction false} TilesIfFits(contentLength: I64, thread: nat, n: nat)
    requires thread >= 2 && contentLength > SINGLE_LIMIT && EndsAfter(contentLength, thread, n)
    requires Fits(contentLength, thread)
    ensures Tiles(Blocks(contentLength, thread, n), contentLength)
    ensures forall i: nat :: i <= n ==> Blocks(contentLength, thread, n)[i].Size() <= BlockSize(contentLength, thread)
  {
    hide BlockSize, LoopGoesOn, Place, Needed, Fits, ToI64;
    FitsEnds(contentLength, thread);
    assert n + 1 == Needed(contentLength, BlockSize(contentLength, thread));
    forall i: nat | i < n
      ensures Place(contentLength, thread, i) >= 0
      ensures Place(contentLength, thread, i + 1)
           == Place(contentLength, thread, i) + BlockSize(contentLength, thread) < contentLength
    {
      Early(contentLength, thread, i);
    }
    Last(contentLength, thread, n);
    FirstTurn(contentLength, thread);
    PlacesTile(contentLength, thread, n);
  }

  lemma {:induction false} PlacesTile(contentLength: I64, thread: nat, n: nat)
    requires thread >= 2 && BlockSize(contentLength, thread) >= 1 && Place(contentLength, thread, 0) == 0
    requires forall i: nat :: i < n ==>
      && Place(contentLength, thread, i) >= 0
      && Place(contentLength, thread, i + 1)
      == Place(contentLength, thread, i) + BlockSize(contentLength, thread) < contentLength
    requires 0 <= Place(contentLength, thread, n) < contentLength
    requires contentLength - Place(contentLength, thread, n) <= BlockSize(contentLength, thread)
    ensures Tiles(Blocks(contentLength, thread, n), contentLength)
    ensures forall i: nat :: i <= n ==> Blocks(contentLength, thread, n)[i].Size() <= BlockSize(contentLength, thread)
  {
    hide BlockSize, Place, ToI64;
    var blocks := Blocks(contentLength, thread, n);
    assert |blocks| == n + 1 && blocks[n] == Range(Place(contentLength, thread, n), contentLength - 1);
    forall i: nat | i < n
      ensures blocks[i].begin == Place(contentLength, thread, i) >= 0
      ensures blocks[i].Size() == BlockSize(contentLength, thread)
      ensures blocks[i].end + 1 == Place(contentLength, thread, i + 1)
    {
      Unwrapped(Place(contentLength, thread, i) + BlockSize(contentLength, thread) - 1);
    }
    hide Blocks;
    forall i | 0 < i <= n ensures blocks[i].begin == blocks[i - 1].end + 1 {
      var k: nat := i - 1;
      assert blocks[k].end + 1 == Place(contentLength, thread, k + 1);
    }
  }

  /** The block behind the highest multiple begins below zero. */
  lemma {:induction false} BrokenByWrap(contentLength: I64, thread: nat, n: nat)
    requires thread >= 2 && contentLength > SINGLE_LIMIT && EndsAfter(contentLength, thread, n)
    requires BlockSize(contentLength, thread) >= 1 && !Fits(contentLength, thread)
    ensures !Tiles(Blocks(contentLength, thread, n), contentLength)
  {
    hide LoopGoesOn, Place, Needed;
    var b := BlockSize(contentLength, thread);
    var m := Needed(contentLength, b);
    Last(contentLength, thread, m - 1);
    if n + 1 < m {
      Early(contentLength, thread, n);
    }
    assert n >= m;
    assert Blocks(contentLength, thread, n)[m].begin < 0;
  }

  /** The first block ends before it begins. */
  lemma {:induction false} BrokenBackwards(contentLength: I64, thread: nat, n: nat)
    requires thread >= 2 && contentLength > SINGLE_LIMIT && EndsAfter(contentLength, thread, n)
    requires BlockSize(contentLength, thread) <= 0
    ensures !Tiles(Blocks(contentLength, thread, n), contentLength)
  {
    FirstTurn(contentLength, thread);
    assert LoopGoesOn(contentLength, thread, 0);
    hide LoopGoesOn, Place;
    assert n > 0;
    hide EndsAfter;
    var first := Blocks(contentLength, thread, n)[0];
    assert first.end < first.begin;
  }

  /** For contents up to 2^62 that means eleven bytes for each thread. */
  lemma {:induction false} FitsBelow(contentLength: I64, thread: nat)
    requires thread >= 2 && SINGLE_LIMIT < contentLength <= TWO_63 / 2
    ensures Fits(contentLength, thread) <==> contentLength >= 11 * thread
  {
    Share(contentLength, thread);
    var b := BlockSize(contentLength, thread);
    if b >= 1 {
      var m := Needed(contentLength, b);
      assert m * b == (m - 1) * b + b;
    }
  }

  lemma {:induction false} Share(contentLength: nat, thread: nat)
    requires thread >= 2
    ensures contentLength / thread >= 11 <==> contentLength >= 11 * thread
  {
    var q, r := contentLength / thread, contentLength % thread;
    assert contentLength == q * thread + r;
    if q >= 11 {
      assert q * thread >= 11 * thread;
    } else {
      assert q * thread <= 10 * thread;
    }
  }

  // When the loop ends at all.

  /**
   * The loop comes to an end exactly if the content is short, or the block size is not 0 and the content is
   * not longer than the highest 64-bit word divisible by the power of two in the block size. The values of
   * the loop variable go round until they meet that word.
   */
  lemma {:induction false} LoopEndsExactly(contentLength: I64, thread: nat)
    requires thread >= 2
    ensures
      var b := BlockSize(contentLength, thread);
      (exists n: nat :: !LoopGoesOn(contentLength, thread, n))
      <==> contentLength <= SINGLE_LIMIT || (b != 0 && contentLength <= TWO_63 - LowBit(b))
  {
    hide LowBit;
    if contentLength <= SINGLE_LIMIT {
      ShortEnds(contentLength, thread);
      return;
    }
    var b := BlockSize(contentLength, thread);
    if b == 0 {
      NeverEnds(contentLength, thread);
    } else if contentLength <= TWO_63 - LowBit(b) {
      var n := HighestMultiple(b);
      hide LoopGoesOn;
      NextTurn(contentLength, thread, n - 1);
      assert !LoopGoesOn(contentLength, thread, n - 1);
    } else {
      hide LoopGoesOn;
      forall n: nat ensures LoopGoesOn(contentLength, thread, n) {
        NoHigherMultiple(b, n + 1);
        NextTurn(contentLength, thread, n);
      }
    }
  }

  lemma {:induction false} ShortEnds(contentLength: I64, thread: nat)
    requires thread >= 2 && contentLength <= SINGLE_LIMIT
    ensures !LoopGoesOn(contentLength, thread, 0)
  {
    FirstTurn(contentLength, thread);
  }

  /** Without progress the guard holds for ever. */
  lemma {:induction false} NeverEnds(contentLength: I64, thread: nat)
    requires thread >= 2 && contentLength > SINGLE_LIMIT && BlockSize(contentLength, thread) == 0
    ensures forall n: nat :: LoopGoesOn(contentLength, thread, n)
  {
  }

  /** Two mebibytes for two hundred thousand threads are an example of a loop that does not end. */
  lemma {:induction false} EndlessExample()
    ensures forall n: nat :: LoopGoesOn(2 * SINGLE_LIMIT, 200_000, n)
  {
    NeverEnds(2 * SINGLE_LIMIT, 200_000);
  }

  /** The longest content and two threads: the fourth value of the loop variable is negative, and the loop goes on. */
  lemma {:induction false} WrappedExample()
    ensures
      var c: I64 := TWO_63 - 1;
      && !Fits(c, 2) && (forall n: nat :: n <= 3 ==> LoopGoesOn(c, 2, n))
      && forall n: nat :: EndsAfter(c, 2, n) ==>
           n > 3 && Blocks(c, 2, n)[2] == Range(9223372036854775786, -4611686018427387938)
  {
    var c: I64 := TWO_63 - 1;
    assert BlockSize(c, 2) == TWO_63 / 2 - 11;
    assert Needed(c, TWO_63 / 2 - 11) == 3;
  }

  lemma {:induction false} FrontTiles(blocks: seq<Block>, n: nat)
    requires Tiles(blocks, n) && blocks != []
    ensures
      var last := blocks[|blocks| - 1];
      Tiles(blocks[..|blocks| - 1], last.begin) && last.begin <= last.end && last.end + 1 == n
  {
  }

  lemma {:induction false} InOrder(blocks: seq<Block>, n: nat)
    requires Tiles(blocks, n)
    ensures forall i :: 0 <= i < |blocks| ==> blocks[i].begin <= blocks[i].end < n
    ensures forall i, j :: 0 <= i < j < |blocks| ==> blocks[i].end < blocks[j].begin
    decreases |blocks|
  {
    if blocks != [] {
      FrontTiles(blocks, n);
      hide Tiles;
      InOrder(blocks[..|blocks| - 1], blocks[|blocks| - 1].begin);
    }
  }

  lemma {:induction false} Covered(blocks: seq<Block>, n: nat, p: nat)
    requires Tiles(blocks, n) && p < n
    ensures exists i :: 0 <= i < |blocks| && blocks[i].Has(p)
    decreases |blocks|
  {
    var k := |blocks| - 1;
    FrontTiles(blocks, n);
    hide Tiles;
    if p < blocks[k].begin {
      Covered(blocks[..k], blocks[k].begin, p);
      var i :| 0 <= i < k && blocks[..k][i].Has(p);
      assert blocks[i].Has(p);
    } else {
      assert blocks[k].Has(p);
    }
  }

  /** Every offset lies in exactly one block. */
  lemma {:induction false} OneBlockEach(blocks: seq<Block>, n: nat, p: nat)
    requires Tiles(blocks, n)
    ensures p < n <==> exists i :: 0 <= i < |blocks| && blocks[i].Has(p)
    ensures forall i, j :: 0 <= i < |blocks| && 0 <= j < |blocks| && blocks[i].Has(p) && blocks[j].Has(p) ==> i == j
  {
    hide Tiles;
    InOrder(blocks, n);
    if p < n {
      Covered(blocks, n, p);
    }
  }
}
