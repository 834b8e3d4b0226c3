/**
 The shared segment in place: a header and a linked list of blocks in an array of words, walked
 and rewritten by the producer's and the consumers' critical sections.
 */
module SharedSegment {
  import opened SharedSpec
  import opened SharedLayout

  const SHM_SIGNATURE := 0x4D335434
  const SHM_VERSION := 2

  class Segment {
    const words: array<Word>
    var signature: nat
    var version: nat
    var segmentSize: nat
    var firstOffset: nat
    var freeOffset: nat
    var publishedBlocks: nat
    var processedBlocks: nat
    var producerDone: nat
    var activeConsumers: nat
    ghost var blocks: seq<Block>

    // ---------- the validity checks of the source ----------

    predicate HeaderIsValid(actualSize: nat)
      reads this
    {
      && signature == SHM_SIGNATURE && version == SHM_VERSION && segmentSize == actualSize
      && segmentSize >= HEADER_SIZE && HEADER_SIZE <= freeOffset <= segmentSize
      && freeOffset % ALIGNMENT == 0 && producerDone <= 1 && processedBlocks <= publishedBlocks
      && if firstOffset == 0 then publishedBlocks == 0 && processedBlocks == 0
         else
           && publishedBlocks != 0 && firstOffset >= HEADER_SIZE && firstOffset % ALIGNMENT == 0
           && firstOffset <= freeOffset && BLOCK_STRUCT_SIZE <= freeOffset - firstOffset
    }

    predicate InBounds(offset: nat)
      reads this
    {
      && offset >= HEADER_SIZE && offset % ALIGNMENT == 0
      && offset <= freeOffset && BLOCK_STRUCT_SIZE <= freeOffset - offset
    }

    function ReadWord(offset: nat, field: nat): Word
      requires WordAt(offset, field) < words.Length
      reads words
    {
      words[WordAt(offset, field)]
    }

    function ReadNext(offset: nat): nat
      requires WordAt(offset, 2) <= words.Length
      reads words
    {
      words[WordAt(offset, 0)] + words[WordAt(offset, 1)] * UINT32_RANGE
    }

    predicate BlockIsValid(offset: nat)
      requires freeOffset / 4 <= words.Length
      reads this, words
    {
      && InBounds(offset)
      && var count, original, state := ReadWord(offset, 2), ReadWord(offset, 3), ReadWord(offset, 4);
         var next, size := ReadNext(offset), BlockSize(original);
         && original != 0 && state <= 2
         && (if state == 2 then count == 0 else count == original)
         && size <= freeOffset - offset
         && (next == 0 || (offset < next && InBounds(next) && size <= next - offset))
    }

    /** shared_header_is_valid, in numbers. */
    lemma HeaderCheckIs(actualSize: nat)
      ensures HeaderIsValid(actualSize) <==>
              && signature == 0x4D335434 && version == 2 && segmentSize == actualSize >= 56
              && 56 <= freeOffset <= segmentSize && freeOffset % 8 == 0 && producerDone <= 1
              && processedBlocks <= publishedBlocks
              && (publishedBlocks == 0 <==> firstOffset == 0)
              && (firstOffset != 0 ==> 56 <= firstOffset <= freeOffset - 24 && firstOffset % 8 == 0)
    {
    }

    /** shared_block_is_valid, in numbers: a following block begins behind the end of this one. */
    lemma BlockCheckIs(offset: nat)
      requires freeOffset / 4 <= words.Length
      ensures BlockIsValid(offset) <==>
              && 56 <= offset <= freeOffset - 24 && offset % 8 == 0
              && var w := offset / 4;
                 var low: int, high: int, count: int := words[w], words[w + 1], words[w + 3];
                 var next, size := low + high * 0x1_0000_0000, (20 + 4 * count + 7) / 8 * 8;
                 && count != 0 && words[w + 4] <= 2 && words[w + 2] == (if words[w + 4] == 2 then 0 else count)
                 && offset + size <= freeOffset
                 && (next != 0 ==> offset + size <= next <= freeOffset - 24 && next % 8 == 0)
    {
      hide BlockSize;
      if 56 <= offset <= freeOffset - 24 && offset % 8 == 0 {
        SizeIs(words[offset / 4 + 3]);
      }
    }

    // ---------- what the segment stands for ----------

    ghost predicate Valid()
      reads this, words
    {
      && signature == SHM_SIGNATURE && version == SHM_VERSION
      && segmentSize < UINT64_RANGE && words.Length == segmentSize / 4
      && producerDone <= 1 && activeConsumers < UINT32_RANGE
      && firstOffset == (if blocks == [] then 0 else HEADER_SIZE)
      && freeOffset == FreeOffset(blocks) && freeOffset <= segmentSize
      && publishedBlocks == |blocks| && processedBlocks == CountProcessed(blocks)
      && Sized(blocks) && Layout(words[..], blocks)
    }

    ghost function View(): Shared
      reads this
    {
      Shared(blocks, producerDone != 0, activeConsumers, segmentSize)
    }

    /** A valid segment passes the check the code makes before it walks the list. */
    lemma HeaderPassesCheck()
      requires Valid()
      ensures HeaderIsValid(segmentSize)
      ensures publishedBlocks == |blocks| && processedBlocks == CountProcessed(blocks)
      ensures firstOffset == if blocks == [] then 0 else OffsetOf(blocks, 0)
      ensures firstOffset == 0 <==> blocks == []
    {
      CountAtMostLength(blocks);
      if blocks != [] {
        PlaceBounds(blocks, 0);
      }
    }

    lemma LaidOut()
      requires Valid()
      ensures Layout(words[..], blocks)
    {
      hide Layout, Sized, CountProcessed, FreeOffset;
    }

    lemma BlockFields(i: nat)
      requires Valid() && i < |blocks|
      ensures var o := OffsetOf(blocks, i);
              && WordAt(o, 5) + |blocks[i].values| <= words.Length
              && ReadNext(o) == NextOf(blocks, i) && ReadWord(o, 2) == CountField(blocks[i])
              && ReadWord(o, 3) == |blocks[i].values| && ReadWord(o, 4) == StateCode(blocks[i].state)
              && words[WordAt(o, 5)..WordAt(o, 5) + |blocks[i].values|] == blocks[i].values
    {
      hide OffsetOf, NextOf, Valid, Layout, BlockIn, WordAt, CountField, StateCode;
      LaidOut();
      BlockAt(words[..], blocks, i);
      InBlock(words, OffsetOf(blocks, i), NextOf(blocks, i), blocks[i]);
    }

    /** The checks on a block's own fields, from what the fields hold. */
    lemma FieldsPass(offset: nat, next: nat, b: Block)
      requires WordAt(offset, 5) <= words.Length && freeOffset / 4 <= words.Length && InBounds(offset)
      requires ReadNext(offset) == next && ReadWord(offset, 2) == CountField(b)
      requires ReadWord(offset, 3) == |b.values| && ReadWord(offset, 4) == StateCode(b.state)
      requires b.values != [] && offset + BlockSize(|b.values|) <= freeOffset
      requires next == 0 || (InBounds(next) && offset + BlockSize(|b.values|) <= next)
      ensures BlockIsValid(offset)
    {
      hide BlockSize;
      assert BlockSize(|b.values|) > 0;
    }

    /** Every block of a valid segment passes the check the code makes before it touches a block. */
    lemma BlockPassesCheck(i: nat)
      requires Valid() && i < |blocks|
      ensures WordAt(OffsetOf(blocks, i), 5) <= words.Length && freeOffset / 4 <= words.Length
      ensures BlockIsValid(OffsetOf(blocks, i))
    {
      BlockFields(i);
      assert forall k :: 0 <= k < |blocks| ==> blocks[k].values != [];
      assert freeOffset == FreeOffset(blocks) && freeOffset / 4 <= words.Length;
      hide Valid, Layout, CountProcessed, BlockIsValid, FreeOffset, BlockSize;
      PlaceBounds(blocks, i);
      FieldsPass(OffsetOf(blocks, i), NextOf(blocks, i), blocks[i]);
    }

    /** Everything a walk over the list learns at block i. */
    lemma Visit(i: nat)
      requires Valid() && i < |blocks|
      ensures var o := OffsetOf(blocks, i);
              && WordAt(o, 2) <= words.Length && WordAt(o, 3) < words.Length && WordAt(o, 4) < words.Length
              && WordAt(o, 5) + |blocks[i].values| <= words.Length && freeOffset / 4 <= words.Length
              && BlockIsValid(o)
              && (ReadWord(o, 4) == 0 <==> blocks[i].state.Ready?)
              && ReadWord(o, 3) == |blocks[i].values|
              && words[WordAt(o, 5)..WordAt(o, 5) + |blocks[i].values|] == blocks[i].values
              && ReadNext(o) == (if i + 1 < |blocks| then OffsetOf(blocks, i + 1) else 0)
              && (ReadNext(o) == 0 <==> i + 1 == |blocks|)
    {
      hide Valid, BlockIsValid;
      BlockPassesCheck(i);
      BlockFields(i);
      NextIsZeroAtEnd(blocks, i);
    }

    // ---------- setting up ----------

    constructor (size: nat)
      requires HEADER_SIZE <= size < UINT64_RANGE
      ensures Valid() && fresh(words) && View() == Shared([], false, 0, size)
      ensures HeaderIsValid(size)
    {
      words := new Word[size / 4](_ => 0);
      signature, version, segmentSize := SHM_SIGNATURE, SHM_VERSION, size;
      firstOffset, freeOffset := 0, HEADER_SIZE;
      publishedBlocks, processedBlocks := 0, 0;
      producerDone, activeConsumers := 0, 0;
      blocks := [];
    }

    // ---------- the consumer's critical sections ----------

    /** A consumer enters, unless the counter of consumers is at its maximum. */
    method Register() returns (registered: bool)
      requires Valid()
      modifies this`activeConsumers
      ensures Valid() && registered == (old(activeConsumers) < UINT32_RANGE - 1)
      ensures View() == old(View()).(active := old(activeConsumers) + if registered then 1 else 0)
    {
      hide Layout, Sized, OffsetOf, FreeOffset, CountProcessed, BlockSize, HeaderIsValid;
      HeaderPassesCheck();
      assert HeaderIsValid(segmentSize);
      if activeConsumers == UINT32_RANGE - 1 {
        return false;
      }
      activeConsumers := activeConsumers + 1;
      return true;
    }

    /** A consumer leaves, in the critical section that told it to. */
    method Deregister()
      requires Valid() && activeConsumers > 0
      modifies this`activeConsumers
      ensures Valid() && View() == old(View()).(active := old(activeConsumers) - 1)
    {
      hide Layout, Sized, OffsetOf, FreeOffset, CountProcessed, BlockSize;
      activeConsumers := activeConsumers - 1;
    }

    method WriteState(offset: nat, count: Word, state: Word)
      requires WordAt(offset, 5) <= words.Length
      modifies words
      ensures words[..] == old(words[..])[WordAt(offset, 4) := state][WordAt(offset, 2) := count]
    {
      words[WordAt(offset, 4)] := state;
      words[WordAt(offset, 2)] := count;
    }

    /** consumer_take_block: claim the first ready block and copy its values out. */
    method TakeBlock(actualSize: nat) returns (result: TakeResult, values: seq<Word>, takenOffset: nat)
      requires Valid() && actualSize == segmentSize
      modifies words, this`blocks
      ensures Valid() && View() == AfterTake(old(View()))
      ensures result == TakeOutcome(old(View())) && !result.TakeError?
      ensures result.TakeOk? ==>
                && result.index < |blocks| && takenOffset == OffsetOf(blocks, result.index)
                && values == blocks[result.index].values
    {
      hide Valid, HeaderIsValid, BlockIsValid, ReadWord, ReadNext, OffsetOf, FreeOffset, CountProcessed, BlockSize,
           TakeOutcome, AfterTake, WithState, FirstReady, WordAt;
      HeaderPassesCheck();
      assert HeaderIsValid(actualSize);
      values, takenOffset := [], 0;
      var offset, visited := firstOffset, 0;
      while visited < publishedBlocks && offset != 0
        invariant Valid() && blocks == old(blocks) && 0 <= visited <= |blocks|
        invariant offset == if visited < |blocks| then OffsetOf(blocks, visited) else 0
        invariant offset == 0 <==> visited == |blocks|
        invariant forall k :: 0 <= k < visited ==> !blocks[k].state.Ready?
      {
        Visit(visited);
        assert BlockIsValid(offset);
        if ReadWord(offset, 4) == 0 {
          var original := ReadWord(offset, 3);
          values := words[WordAt(offset, 5)..WordAt(offset, 5) + original];
          TakenAt(View(), visited);
          takenOffset := offset;
          result := TakeOk(visited);
          ClaimBlock(visited, offset);
          return;
        }
        offset := ReadNext(offset);
        visited := visited + 1;
      }
      assert offset == 0;
      NothingTaken(View());
      if producerDone != 0 && processedBlocks == publishedBlocks {
        return Finished, [], 0;
      }
      return NoData, [], 0;
    }

    /** Mark a ready block as in progress; its offset stays what it was. */
    method ClaimBlock(ghost i: nat, offset: nat)
      requires Valid() && i < |blocks| && offset == OffsetOf(blocks, i) && blocks[i].state.Ready?
      modifies words, this`blocks
      ensures Valid() && View() == WithState(old(View()), i, InProgress)
      ensures blocks == old(blocks[i := blocks[i].(state := InProgress)]) && OffsetOf(blocks, i) == offset
    {
      hide Layout, Sized, BlockIn, OffsetOf, FreeOffset, CountProcessed;
      BlockMarked(words[..], blocks, i, InProgress);
      SamePlaces(blocks, i, InProgress, i);
      BlockFields(i);
      var count := ReadWord(offset, 3);
      WriteState(offset, count, 1);
      blocks := blocks[i := blocks[i].(state := InProgress)];
    }

    /** consumer_finish_block, on a block of this segment. */
    method FinishBlock(actualSize: nat, offset: nat, ghost i: nat) returns (finished: bool)
      requires Valid() && actualSize == segmentSize && i < |blocks| && offset == OffsetOf(blocks, i)
      modifies words, this`blocks, this`processedBlocks
      ensures Valid() && finished == old(blocks)[i].state.InProgress?
      ensures View() == if finished then WithState(old(View()), i, Processed) else old(View())
    {
      hide Layout, Sized, BlockIn, OffsetOf, FreeOffset, CountProcessed, HeaderIsValid, BlockIsValid;
      HeaderPassesCheck();
      BlockPassesCheck(i);
      assert HeaderIsValid(actualSize) && BlockIsValid(offset);
      BlockFields(i);
      if ReadWord(offset, 4) != 1 {
        return false;
      }
      assert ReadWord(offset, 2) == ReadWord(offset, 3);
      FinishCounted(i, offset);
      return true;
    }

    /** The updates of a successful finish; the counter of processed blocks is never at its maximum. */
    method FinishCounted(ghost i: nat, offset: nat)
      requires Valid() && i < |blocks| && offset == OffsetOf(blocks, i) && blocks[i].state.InProgress?
      modifies words, this`blocks, this`processedBlocks
      ensures Valid() && View() == WithState(old(View()), i, Processed)
    {
      hide Layout, Sized, BlockIn, OffsetOf, FreeOffset, CountProcessed;
      BlocksFit(blocks, segmentSize);
      assert processedBlocks < UINT64_RANGE - 1;
      BlockMarked(words[..], blocks, i, Processed);
      WriteState(offset, 0, 2);
      processedBlocks := processedBlocks + 1;
      blocks := blocks[i := blocks[i].(state := Processed)];
    }

    // ---------- the producer's critical sections ----------

    /** The producer's last loop: whether every block has been processed and no consumer is registered. */
    method ProcessingFinished(actualSize: nat) returns (finished: bool)
      requires Valid() && actualSize == segmentSize
      ensures finished <==> AllProcessed(View()) && View().active == 0
    {
      hide Layout, Sized, OffsetOf, FreeOffset, BlockSize, HeaderIsValid;
      HeaderPassesCheck();
      assert HeaderIsValid(actualSize);
      CountAtMostLength(blocks);
      finished := processedBlocks == publishedBlocks && activeConsumers == 0;
    }

    /** producer_max_fitting_count: binary search for the largest count that fits. */
    method MaxFittingCount(configuredMax: Word) returns (low: Word)
      requires Valid()
      ensures MaxFitting(Remaining(View()), configuredMax, low)
    {
      var remaining := segmentSize - freeOffset;
      low := 0;
      var high: Word := configuredMax;
      while low < high
        invariant 0 <= low <= high <= configuredMax
        invariant low > 0 ==> BlockSize(low) <= remaining
        invariant forall c: nat :: high < c <= configuredMax ==> BlockSize(c) > remaining
        decreases high - low
      {
        var candidate: Word := low + (high - low + 1) / 2;
        assert low < candidate <= high;
        if BlockSize(candidate) <= remaining {
          low := candidate;
        } else {
          forall c: nat | candidate <= c <= configuredMax
            ensures BlockSize(c) > remaining
          {
            BlockSizeMonotone(candidate, c);
          }
          high := candidate - 1;
        }
      }
    }

    /** The producer's first critical section: how much fits, or the end of production. */
    method CheckSpace(minLength: Word, maxLength: Word) returns (fitting: Word, finished: bool)
      requires Valid()
      modifies this`producerDone
      ensures Valid() && fitting == MaxFit(Remaining(old(View())), maxLength)
      ensures finished == (fitting < minLength)
      ensures View() == if finished then old(View()).(done := true) else old(View())
    {
      hide Layout, Sized, OffsetOf, FreeOffset, CountProcessed, BlockSize, HeaderIsValid, MaxFit, MaxFitting;
      HeaderPassesCheck();
      assert HeaderIsValid(segmentSize);
      MaxFitIsMaxFitting(segmentSize - freeOffset, maxLength);
      fitting := MaxFittingCount(maxLength);
      finished := fitting < minLength;
      if finished {
        producerDone := 1;
      }
    }

    /** producer_find_last_block, on a list that has one. */
    method FindLastBlock() returns (offset: nat)
      requires Valid() && blocks != []
      ensures offset == OffsetOf(blocks, |blocks| - 1)
    {
      hide *;
      HeaderPassesCheck();
      offset := firstOffset;
      ghost var visited := 0;
      Visit(0);
      while ReadNext(offset) != 0
        invariant 0 <= visited < |blocks| && offset == OffsetOf(blocks, visited)
        invariant WordAt(offset, 2) <= words.Length
        invariant ReadNext(offset) == if visited + 1 < |blocks| then OffsetOf(blocks, visited + 1) else 0
        invariant ReadNext(offset) == 0 <==> visited + 1 == |blocks|
        decreases |blocks| - visited
      {
        Visit(visited);
        assert BlockIsValid(offset);
        offset := ReadNext(offset);
        visited := visited + 1;
        Visit(visited);
      }
    }

    method WriteNext(offset: nat, next: nat)
      requires WordAt(offset, 2) <= words.Length && next < UINT64_RANGE
      modifies words
      ensures KeptExcept(old(words[..]), words[..], words.Length, WordAt(offset, 0))
      ensures Word64(words[..], WordAt(offset, 0)) == next
    {
      words[WordAt(offset, 0)] := next % UINT32_RANGE;
      words[WordAt(offset, 1)] := next / UINT32_RANGE;
    }

    /** Fill in a new, unlinked, ready block. */
    method WriteBlock(offset: nat, values: seq<Word>)
      requires WordAt(offset, 5) + |values| <= words.Length && |values| < UINT32_RANGE
      modifies words
      ensures BlockIn(words[..], offset, 0, Block(values, Ready))
      ensures forall k :: 0 <= k < WordAt(offset, 0) ==> words[..][k] == old(words[..])[k]
    {
      WriteNext(offset, 0);
      words[WordAt(offset, 2)] := |values|;
      words[WordAt(offset, 3)] := |values|;
      words[WordAt(offset, 4)] := StateCode(Ready);
      forall i | 0 <= i < |values| {
        words[WordAt(offset, 5) + i] := values[i];
      }
    }

    /** A block that fits the remaining space fits the memory. */
    lemma RoomForBlock(b: Block)
      requires Valid() && BlockSize(|b.values|) <= segmentSize - freeOffset
      ensures WordAt(freeOffset, 5) + |b.values| <= words.Length && WordAt(freeOffset, 0) <= words.Length
      ensures freeOffset == FreeOffset(blocks) && freeOffset < UINT64_RANGE
      ensures Layout(words[..], blocks)
      ensures firstOffset == 0 ==> blocks == [] && LinkWord(blocks) == WordAt(freeOffset, 0)
      ensures firstOffset != 0 ==> blocks != []
    {
      hide Layout, CountProcessed;
      Extent(b, freeOffset);
    }

    /** Write a block at the free offset, and link it from the last one if there is one. */
    method PutBlock(values: seq<Word>)
      requires Valid() && 0 < |values| < UINT32_RANGE && BlockSize(|values|) <= segmentSize - freeOffset
      modifies words
      ensures Layout(words[..], blocks + [Block(values, Ready)])
    {
      hide *;
      ghost var mem, b := words[..], Block(values, Ready);
      RoomForBlock(b);
      if firstOffset == 0 {
        WriteBlock(freeOffset, values);
        KeptBelow(mem, words[..], freeOffset);
      } else {
        var last := FindLastBlock();
        LastLinkBelowFree(blocks);
        WriteBlock(freeOffset, values);
        ghost var written := words[..];
        WriteNext(last, freeOffset);
        KeptThenLinked(mem, written, words[..], freeOffset, LinkWord(blocks), b);
      }
      BlockAppended(mem, words[..], blocks, b);
    }

    /** producer_append_block. */
    method AppendBlock(values: seq<Word>) returns (result: AppendResult)
      requires Valid() && |values| < UINT32_RANGE
      modifies words, this`blocks, this`freeOffset, this`firstOffset, this`publishedBlocks
      ensures Valid()
      ensures result == AppendOutcome(old(View()), values)
      ensures View() == AfterAppend(old(View()), values)
    {
      hide Layout, OffsetOf, CountProcessed;
      if values == [] {
        return AppendError;
      }
      HeaderPassesCheck();
      assert HeaderIsValid(segmentSize);
      if producerDone != 0 {
        return AppendError;
      }
      BlocksFit(blocks, segmentSize);
      assert publishedBlocks < UINT64_RANGE - 1;
      var blockSize := BlockSize(|values|);
      if blockSize > segmentSize - freeOffset {
        return NoSpace;
      }
      AppendedSizes(blocks, Block(values, Ready));
      PutBlock(values);
      if firstOffset == 0 {
        firstOffset := freeOffset;
      }
      freeOffset := freeOffset + blockSize;
      publishedBlocks := publishedBlocks + 1;
      blocks := blocks + [Block(values, Ready)];
      return Appended;
    }
  }

  /** A 32-bit word read as a signed value. */
  function Signed(w: Word): (v: int)
    ensures -0x8000_0000 <= v < 0x8000_0000 && (w == v || w == v + 0x1_0000_0000)
  {
    if w < 0x8000_0000 then w else w - UINT32_RANGE
  }

  /** consumer_find_min_max. */
  method FindMinMax(values: seq<Word>) returns (minimum: int, maximum: int)
    requires values != []
    ensures exists i :: 0 <= i < |values| && minimum == Signed(values[i])
    ensures exists i :: 0 <= i < |values| && maximum == Signed(values[i])
    ensures forall i :: 0 <= i < |values| ==> minimum <= Signed(values[i]) <= maximum
  {
    minimum, maximum := Signed(values[0]), Signed(values[0]);
    var index := 1;
    while index < |values|
      invariant 1 <= index <= |values|
      invariant exists i :: 0 <= i < index && minimum == Signed(values[i])
      invariant exists i :: 0 <= i < index && maximum == Signed(values[i])
      invariant forall i :: 0 <= i < index ==> minimum <= Signed(values[i]) <= maximum
    {
      if Signed(values[index]) < minimum {
        minimum := Signed(values[index]);
      }
      if Signed(values[index]) > maximum {
        maximum := Signed(values[index]);
      }
      index := index + 1;
    }
  }

  lemma AppendedSizes(blocks: seq<Block>, b: Block)
    requires Sized(blocks) && 0 < |b.values| < UINT32_RANGE && b.state.Ready?
    ensures Sized(blocks + [b]) && CountProcessed(blocks + [b]) == CountProcessed(blocks)
    ensures FreeOffset(blocks + [b]) == FreeOffset(blocks) + BlockSize(|b.values|)
    ensures blocks == [] ==> FreeOffset(blocks) == HEADER_SIZE
  {
    CountAfterAppend(blocks, b);
    SameOffsets(blocks, blocks + [b], |blocks|);
  }

  /** The last block's link word lies below the free offset, apart from what is written there. */
  lemma LastLinkBelowFree(blocks: seq<Block>)
    requires blocks != []
    ensures LinkWord(blocks) == WordAt(OffsetOf(blocks, |blocks| - 1), 0)
    ensures WordAt(OffsetOf(blocks, |blocks| - 1), 2) == LinkWord(blocks) + 2 <= WordAt(FreeOffset(blocks), 0)
  {
    Extent(blocks[|blocks| - 1], OffsetOf(blocks, |blocks| - 1));
    OffsetsAscend(blocks, |blocks| - 1, |blocks|);
  }

  /** Writing at the free offset leaves everything below alone. */
  lemma KeptBelow(mem: Memory, mem': Memory, offset: nat)
    requires WordAt(offset, 0) <= |mem| == |mem'|
    requires forall k :: 0 <= k < WordAt(offset, 0) ==> mem'[k] == mem[k]
    ensures KeptExcept(mem, mem', WordAt(offset, 0), WordAt(offset, 0))
  {
  }

  /** Writing a block at the free offset and then a link below it. */
  lemma KeptThenLinked(mem: Memory, written: Memory, linked: Memory, offset: nat, link: nat, b: Block)
    requires WordAt(offset, 0) <= |mem| == |written| && link + 2 <= WordAt(offset, 0)
    requires forall k :: 0 <= k < WordAt(offset, 0) ==> written[k] == mem[k]
    requires KeptExcept(written, linked, |written|, link) && BlockIn(written, offset, 0, b)
    ensures KeptExcept(mem, linked, WordAt(offset, 0), link) && BlockIn(linked, offset, 0, b)
  {
    BlockInSame(written, linked, offset, 0, b);
  }

  lemma InBlock(words: array<Word>, offset: nat, next: nat, b: Block)
    requires BlockIn(words[..], offset, next, b)
    ensures WordAt(offset, 5) + |b.values| <= words.Length
    ensures words[WordAt(offset, 0)] + words[WordAt(offset, 1)] * UINT32_RANGE == next
    ensures words[WordAt(offset, 2)] == CountField(b) && words[WordAt(offset, 3)] == |b.values|
    ensures words[WordAt(offset, 4)] == StateCode(b.state)
    ensures words[WordAt(offset, 5)..WordAt(offset, 5) + |b.values|] == b.values
  {
    var w, n := WordAt(offset, 5), |b.values|;
    assert words[w..w + n] == words[..][w..w + n];
  }

  lemma NextIsZeroAtEnd(blocks: seq<Block>, i: nat)
    requires i < |blocks|
    ensures NextOf(blocks, i) == 0 <==> i + 1 == |blocks|
    ensures NextOf(blocks, i) == if i + 1 < |blocks| then OffsetOf(blocks, i + 1) else 0
  {
  }

  /** A 64-bit segment holds far fewer blocks than the block counters can count. */
  lemma BlocksFit(blocks: seq<Block>, size: nat)
    requires FreeOffset(blocks) <= size < UINT64_RANGE
    requires Sized(blocks)
    ensures HEADER_SIZE + BLOCK_STRUCT_SIZE * |blocks| <= size
    ensures |blocks| < UINT64_RANGE - 1 && CountProcessed(blocks) < UINT64_RANGE - 1
  {
    OffsetsGrow(blocks, |blocks|);
    CountAtMostLength(blocks);
  }
}
