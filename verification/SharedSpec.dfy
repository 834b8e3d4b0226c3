/**
 What the shared segment stands for: a list of blocks of values, each ready, in progress or
 processed, filled by one producer and emptied by consumers. Also the byte arithmetic of the
 segment's layout.
 */
module SharedSpec {
  const HEADER_SIZE := 56        // sizeof(shared_header_t)
  const BLOCK_STRUCT_SIZE := 24  // sizeof(shared_block_t)
  const BLOCK_VALUES_OFFSET := 20 // offsetof(shared_block_t, values)
  const ALIGNMENT := 8           // alignof(shared_block_t)
  const VALUE_SIZE := 4
  const UINT32_RANGE := 0x1_0000_0000
  const UINT64_RANGE := 0x1_0000_0000_0000_0000

  type Word = w: int | 0 <= w < UINT32_RANGE

  /** shared_block_size, on counts for which the size_t arithmetic cannot overflow. */
  function BlockSize(count: nat): (size: nat)
    ensures size % ALIGNMENT == 0
    ensures BLOCK_VALUES_OFFSET + count * VALUE_SIZE <= size < BLOCK_VALUES_OFFSET + count * VALUE_SIZE + ALIGNMENT
  {
    var size := BLOCK_VALUES_OFFSET + count * VALUE_SIZE;
    var remainder := size % ALIGNMENT;
    if remainder != 0 then size + (ALIGNMENT - remainder) else size
  }

  lemma {:induction false} BlockSizeMonotone(a: nat, b: nat)
    requires a <= b
    ensures BlockSize(a) <= BlockSize(b)
  {
    hide BlockSize;
    MultiplesApart(BlockSize(a), BlockSize(b));
  }

  /** Of two multiples of the alignment, the one that is not a whole step ahead is not ahead at all. */
  lemma MultiplesApart(x: nat, y: nat)
    requires x % ALIGNMENT == 0 && y % ALIGNMENT == 0 && x < y + ALIGNMENT
    ensures x <= y
  {
  }

  datatype State = Ready | InProgress | Processed

  datatype Block = Block(values: seq<Word>, state: State)

  /** Where block i begins; the blocks lie one behind the other after the header. */
  function OffsetOf(blocks: seq<Block>, i: nat): (offset: nat)
    requires i <= |blocks|
    ensures offset >= HEADER_SIZE && offset % ALIGNMENT == 0
  {
    if i == 0 then HEADER_SIZE else OffsetOf(blocks, i - 1) + BlockSize(|blocks[i - 1].values|)
  }

  function FreeOffset(blocks: seq<Block>): nat {
    OffsetOf(blocks, |blocks|)
  }

  function CountProcessed(blocks: seq<Block>): nat {
    if blocks == [] then 0
    else CountProcessed(blocks[..|blocks| - 1]) + if blocks[|blocks| - 1].state.Processed? then 1 else 0
  }

  function FirstReady(blocks: seq<Block>): (i: nat)
    ensures i <= |blocks|
    ensures i < |blocks| ==> blocks[i].state.Ready?
    ensures forall k :: 0 <= k < i ==> !blocks[k].state.Ready?
  {
    if blocks == [] || blocks[0].state.Ready? then 0 else 1 + FirstReady(blocks[1..])
  }

  /** The segment as its users see it. */
  datatype Shared = Shared(blocks: seq<Block>, done: bool, active: nat, size: nat)

  predicate AllProcessed(s: Shared) {
    forall i :: 0 <= i < |s.blocks| ==> s.blocks[i].state.Processed?
  }

  function Remaining(s: Shared): int {
    s.size - FreeOffset(s.blocks)
  }

  datatype TakeResult = TakeOk(index: nat) | NoData | Finished | TakeError

  function TakeOutcome(s: Shared): TakeResult {
    if FirstReady(s.blocks) < |s.blocks| then TakeOk(FirstReady(s.blocks))
    else if s.done && AllProcessed(s) then Finished
    else NoData
  }

  function WithState(s: Shared, i: nat, state: State): Shared
    requires i < |s.blocks|
  {
    s.(blocks := s.blocks[i := s.blocks[i].(state := state)])
  }

  function AfterTake(s: Shared): Shared {
    if FirstReady(s.blocks) < |s.blocks| then WithState(s, FirstReady(s.blocks), InProgress) else s
  }

  datatype AppendResult = Appended | NoSpace | AppendError

  function AppendOutcome(s: Shared, values: seq<Word>): AppendResult {
    if values == [] || s.done then AppendError
    else if BlockSize(|values|) > Remaining(s) then NoSpace
    else Appended
  }

  function AfterAppend(s: Shared, values: seq<Word>): Shared {
    if AppendOutcome(s, values).Appended? then s.(blocks := s.blocks + [Block(values, Ready)]) else s
  }

  /** The largest count up to `limit` whose block fits the remaining space; 0 if none does. */
  ghost predicate MaxFitting(remaining: nat, limit: nat, count: nat) {
    && count <= limit
    && (count > 0 ==> BlockSize(count) <= remaining)
    && forall c: nat :: count < c <= limit ==> BlockSize(c) > remaining
  }

  function MaxFit(remaining: int, limit: nat): nat {
    if limit == 0 || BlockSize(limit) <= remaining then limit else MaxFit(remaining, limit - 1)
  }

  lemma {:induction false} MaxFitIsMaxFitting(remaining: nat, limit: nat)
    ensures MaxFitting(remaining, limit, MaxFit(remaining, limit))
    ensures forall count :: MaxFitting(remaining, limit, count) ==> count == MaxFit(remaining, limit)
  {
    if limit != 0 && BlockSize(limit) > remaining {
      MaxFitIsMaxFitting(remaining, limit - 1);
      forall count | MaxFitting(remaining, limit, count)
        ensures count == MaxFit(remaining, limit)
      {
        assert MaxFitting(remaining, limit - 1, count);
      }
    }
  }

  // ---------- layout ----------

  lemma {:induction false} OffsetsAscend(blocks: seq<Block>, i: nat, j: nat)
    requires i < j <= |blocks|
    ensures OffsetOf(blocks, i) + BlockSize(|blocks[i].values|) <= OffsetOf(blocks, j)
    decreases j
  {
    if i < j - 1 {
      OffsetsAscend(blocks, i, j - 1);
    }
  }

  /** Offsets depend only on the lengths of the blocks before. */
  lemma {:induction false} SameOffsets(a: seq<Block>, b: seq<Block>, i: nat)
    requires i <= |a| && i <= |b| && forall k :: 0 <= k < i ==> |a[k].values| == |b[k].values|
    ensures OffsetOf(a, i) == OffsetOf(b, i)
  {
    if i > 0 {
      SameOffsets(a, b, i - 1);
    }
  }

  lemma {:induction false} OffsetsGrow(blocks: seq<Block>, i: nat)
    requires i <= |blocks| && forall k :: 0 <= k < |blocks| ==> blocks[k].values != []
    ensures OffsetOf(blocks, i) >= HEADER_SIZE + BLOCK_STRUCT_SIZE * i
  {
    if i > 0 {
      OffsetsGrow(blocks, i - 1);
    }
  }

  /** Where a block and its successor lie, with room for at least a block struct each. */
  lemma PlaceBounds(blocks: seq<Block>, i: nat)
    requires i < |blocks| && forall k :: 0 <= k < |blocks| ==> blocks[k].values != []
    ensures BLOCK_STRUCT_SIZE <= BlockSize(|blocks[i].values|)
    ensures OffsetOf(blocks, i) + BlockSize(|blocks[i].values|) == OffsetOf(blocks, i + 1) <= FreeOffset(blocks)
    ensures i + 1 < |blocks| ==> OffsetOf(blocks, i + 1) + BLOCK_STRUCT_SIZE <= FreeOffset(blocks)
  {
    OffsetsAscend(blocks, i, |blocks|);
    if i + 1 < |blocks| {
      OffsetsAscend(blocks, i + 1, |blocks|);
    }
  }

  /** Taking with block i the first ready one. */
  lemma TakenAt(s: Shared, i: nat)
    requires i < |s.blocks| && s.blocks[i].state.Ready? && forall k :: 0 <= k < i ==> !s.blocks[k].state.Ready?
    ensures TakeOutcome(s) == TakeOk(i) && AfterTake(s) == WithState(s, i, InProgress)
  {
    FirstReadyIs(s.blocks, i);
  }

  lemma NothingTaken(s: Shared)
    requires forall k :: 0 <= k < |s.blocks| ==> !s.blocks[k].state.Ready?
    ensures TakeOutcome(s) == (if s.done && CountProcessed(s.blocks) == |s.blocks| then Finished else NoData)
    ensures AfterTake(s) == s
  {
    FirstReadyIs(s.blocks, |s.blocks|);
    CountAtMostLength(s.blocks);
  }

  lemma {:induction false} FirstReadyIs(blocks: seq<Block>, i: nat)
    requires i <= |blocks| && (forall k :: 0 <= k < i ==> !blocks[k].state.Ready?)
    requires i < |blocks| ==> blocks[i].state.Ready?
    ensures FirstReady(blocks) == i
  {
    if i > 0 {
      FirstReadyIs(blocks[1..], i - 1);
    }
  }

  // ---------- counting ----------

  lemma {:induction false} CountAtMostLength(blocks: seq<Block>)
    ensures CountProcessed(blocks) <= |blocks|
    ensures CountProcessed(blocks) == |blocks| <==> forall i :: 0 <= i < |blocks| ==> blocks[i].state.Processed?
  {
    if blocks != [] {
      CountAtMostLength(blocks[..|blocks| - 1]);
    }
  }

  lemma {:induction false} CountAfterChange(blocks: seq<Block>, i: nat, state: State)
    requires i < |blocks|
    ensures CountProcessed(blocks[i := blocks[i].(state := state)]) ==
            CountProcessed(blocks) - (if blocks[i].state.Processed? then 1 else 0) + (if state.Processed? then 1 else 0)
  {
    var last := |blocks| - 1;
    var changed := blocks[i := blocks[i].(state := state)];
    if i == last {
      assert changed[..last] == blocks[..last];
    } else {
      CountAfterChange(blocks[..last], i, state);
      assert changed[..last] == blocks[..last][i := blocks[i].(state := state)];
    }
  }

  lemma CountAfterAppend(blocks: seq<Block>, b: Block)
    ensures CountProcessed(blocks + [b]) == CountProcessed(blocks) + if b.state.Processed? then 1 else 0
  {
    assert (blocks + [b])[..|blocks|] == blocks;
  }
}
