/** How a list of blocks lies in the 32-bit words of the segment, and what a write does to it. */
module SharedLayout {
  import opened SharedSpec

  type Memory = seq<Word>

  /** A 64-bit field, low word first. */
  function Word64(mem: Memory, i: nat): nat
    requires i + 2 <= |mem|
  {
    mem[i] + mem[i + 1] * UINT32_RANGE
  }

  function StateCode(s: State): Word {
    match s
    case Ready => 0
    case InProgress => 1
    case Processed => 2
  }

  /** The count field drops to 0 when the block has been processed. */
  function CountField(b: Block): nat {
    if b.state.Processed? then 0 else |b.values|
  }

  /** Word index of a block field: next_offset 0, count 2, original_count 3, state 4, values from 5. */
  function WordAt(offset: nat, field: nat): nat {
    offset / 4 + field
  }

  ghost predicate BlockIn(mem: Memory, offset: nat, next: nat, b: Block) {
    && WordAt(offset, 5) + |b.values| <= |mem|
    && Word64(mem, WordAt(offset, 0)) == next
    && mem[WordAt(offset, 2)] == CountField(b)
    && mem[WordAt(offset, 3)] == |b.values|
    && mem[WordAt(offset, 4)] == StateCode(b.state)
    && mem[WordAt(offset, 5)..WordAt(offset, 5) + |b.values|] == b.values
  }

  function NextOf(blocks: seq<Block>, i: nat): nat
    requires i < |blocks|
  {
    if i + 1 < |blocks| then OffsetOf(blocks, i + 1) else 0
  }

  ghost predicate Layout(mem: Memory, blocks: seq<Block>) {
    forall i :: 0 <= i < |blocks| ==> BlockIn(mem, OffsetOf(blocks, i), NextOf(blocks, i), blocks[i])
  }

  lemma BlockAt(mem: Memory, blocks: seq<Block>, i: nat)
    requires Layout(mem, blocks) && i < |blocks|
    ensures BlockIn(mem, OffsetOf(blocks, i), NextOf(blocks, i), blocks[i])
  {
    hide BlockIn, OffsetOf, NextOf;
  }

  lemma SizeIs(count: nat)
    ensures BlockSize(count) == (20 + 4 * count + 7) / 8 * 8
  {
  }

  lemma PlaceOf(blocks: seq<Block>, i: nat)
    requires i < |blocks|
    ensures OffsetOf(blocks, i) ==
            if i == 0 then 56 else OffsetOf(blocks, i - 1) + (20 + 4 * |blocks[i - 1].values| + 7) / 8 * 8
  {
    hide BlockSize;
    if i > 0 {
      SizeIs(|blocks[i - 1].values|);
    }
  }

  /**
   The words of a block that begins at a byte: the place of its successor, low half first, or 0; the number of
   its values, which drops to 0 once they are processed; the number it began with; 0, 1 or 2 for ready, in
   progress and processed; and the values.
   */
  predicate Stands(mem: Memory, at: nat, next: nat, b: Block) {
    var w, n := at / 4, |b.values|;
    && w + 5 + n <= |mem| && mem[w] as int + mem[w + 1] as int * 0x1_0000_0000 == next
    && mem[w + 2] == (if b.state.Processed? then 0 else n) && mem[w + 3] == n
    && mem[w + 4] == (if b.state.Ready? then 0 else if b.state.InProgress? then 1 else 2)
    && mem[w + 5..w + 5 + n] == b.values
  }

  /** The first block stands at byte 56 and each other at the next multiple of 8 after the one before. */
  lemma {:induction false} MemoryMap(mem: Memory, blocks: seq<Block>, i: nat)
    requires Layout(mem, blocks) && i < |blocks|
    ensures Stands(mem, OffsetOf(blocks, i), if i + 1 < |blocks| then OffsetOf(blocks, i + 1) else 0, blocks[i])
    ensures OffsetOf(blocks, i) ==
            if i == 0 then 56 else OffsetOf(blocks, i - 1) + (20 + 4 * |blocks[i - 1].values| + 7) / 8 * 8
  {
    hide Layout, OffsetOf;
    BlockAt(mem, blocks, i);
    PlaceOf(blocks, i);
  }

  lemma Extent(b: Block, offset: nat)
    requires offset % ALIGNMENT == 0
    ensures WordAt(offset, 5) + |b.values| <= WordAt(offset + BlockSize(|b.values|), 0)
  {
  }

  /** Words outside a block's extent do not matter to it. */
  lemma BlockInSame(mem: Memory, mem': Memory, offset: nat, next: nat, b: Block)
    requires BlockIn(mem, offset, next, b) && |mem'| == |mem|
    requires forall k :: WordAt(offset, 0) <= k < WordAt(offset, 5) + |b.values| ==> mem'[k] == mem[k]
    ensures BlockIn(mem', offset, next, b)
  {
    var w := WordAt(offset, 5);
    assert mem'[w..w + |b.values|] == mem[w..w + |b.values|];
  }

  function Rewritten(mem: Memory, offset: nat, b: Block): Memory
    requires WordAt(offset, 5) <= |mem| && |b.values| < UINT32_RANGE
  {
    mem[WordAt(offset, 4) := StateCode(b.state)][WordAt(offset, 2) := CountField(b)]
  }

  lemma RewrittenBlock(mem: Memory, offset: nat, next: nat, b: Block, state: State)
    requires BlockIn(mem, offset, next, b) && |b.values| < UINT32_RANGE
    ensures BlockIn(Rewritten(mem, offset, b.(state := state)), offset, next, b.(state := state))
  {
    var mem' := Rewritten(mem, offset, b.(state := state));
    var w := WordAt(offset, 5);
    assert mem'[w..w + |b.values|] == mem[w..w + |b.values|];
  }

  /** Changing a state moves no block. */
  lemma SamePlaces(blocks: seq<Block>, i: nat, state: State, j: nat)
    requires i < |blocks| && j < |blocks|
    ensures var blocks' := blocks[i := blocks[i].(state := state)];
            OffsetOf(blocks', j) == OffsetOf(blocks, j) && NextOf(blocks', j) == NextOf(blocks, j)
  {
    var blocks' := blocks[i := blocks[i].(state := state)];
    SameOffsets(blocks, blocks', j);
    SameOffsets(blocks, blocks', j + 1);
  }

  /** A block's state and count words rewritten: that block changes state, every other one is as before. */
  lemma StateRewritten(mem: Memory, blocks: seq<Block>, i: nat, state: State)
    requires Layout(mem, blocks) && i < |blocks| && |blocks[i].values| < UINT32_RANGE
    ensures WordAt(OffsetOf(blocks, i), 5) <= |mem|
    ensures Layout(Rewritten(mem, OffsetOf(blocks, i), blocks[i].(state := state)),
                   blocks[i := blocks[i].(state := state)])
  {
    var o := OffsetOf(blocks, i);
    var blocks' := blocks[i := blocks[i].(state := state)];
    assert BlockIn(mem, o, NextOf(blocks, i), blocks[i]);
    var mem' := Rewritten(mem, o, blocks[i].(state := state));
    forall j | 0 <= j < |blocks'|
      ensures BlockIn(mem', OffsetOf(blocks', j), NextOf(blocks', j), blocks'[j])
    {
      assert BlockIn(mem, OffsetOf(blocks, j), NextOf(blocks, j), blocks[j]);
      SamePlaces(blocks, i, state, j);
      if j == i {
        RewrittenBlock(mem, o, NextOf(blocks, i), blocks[i], state);
      } else {
        RewrittenElsewhere(mem, blocks, i, j, state);
      }
    }
  }

  lemma RewrittenElsewhere(mem: Memory, blocks: seq<Block>, i: nat, j: nat, state: State)
    requires i < |blocks| && j < |blocks| && i != j && |blocks[i].values| < UINT32_RANGE
    requires WordAt(OffsetOf(blocks, i), 5) <= |mem|
    requires BlockIn(mem, OffsetOf(blocks, j), NextOf(blocks, j), blocks[j])
    ensures BlockIn(Rewritten(mem, OffsetOf(blocks, i), blocks[i].(state := state)),
                    OffsetOf(blocks, j), NextOf(blocks, j), blocks[j])
  {
    Apart(blocks, i, j);
    BlockInSame(mem, Rewritten(mem, OffsetOf(blocks, i), blocks[i].(state := state)),
                OffsetOf(blocks, j), NextOf(blocks, j), blocks[j]);
  }

  /** Different blocks share no word. */
  lemma Apart(blocks: seq<Block>, i: nat, j: nat)
    requires i < |blocks| && j < |blocks| && i != j
    ensures var o, p := OffsetOf(blocks, i), OffsetOf(blocks, j);
            WordAt(o, 5) + |blocks[i].values| <= WordAt(p, 0) || WordAt(p, 5) + |blocks[j].values| <= WordAt(o, 0)
  {
    Extent(blocks[i], OffsetOf(blocks, i));
    Extent(blocks[j], OffsetOf(blocks, j));
    if i < j {
      OffsetsAscend(blocks, i, j);
    } else {
      OffsetsAscend(blocks, j, i);
    }
  }

  /** Two memories agree below `limit`, except on the two words from `link` on. */
  ghost predicate KeptExcept(mem: Memory, mem': Memory, limit: nat, link: nat) {
    && limit <= |mem| == |mem'|
    && forall k :: 0 <= k < limit && !(link <= k < link + 2) ==> mem'[k] == mem[k]
  }

  /** Where the last block's next_offset is; no word of any block when there is none. */
  function LinkWord(blocks: seq<Block>): nat {
    if blocks == [] then WordAt(FreeOffset(blocks), 0) else WordAt(OffsetOf(blocks, |blocks| - 1), 0)
  }

  /** A new block written at the free offset and linked from the last one joins the list. */
  lemma {:induction false} BlockAppended(mem: Memory, mem': Memory, blocks: seq<Block>, b: Block)
    requires Layout(mem, blocks)
    requires KeptExcept(mem, mem', WordAt(FreeOffset(blocks), 0), LinkWord(blocks))
    requires BlockIn(mem', FreeOffset(blocks), 0, b)
    requires blocks != [] ==> LinkWord(blocks) + 2 <= |mem'| && Word64(mem', LinkWord(blocks)) == FreeOffset(blocks)
    ensures Layout(mem', blocks + [b])
  {
    var blocks' := blocks + [b];
    forall j | 0 <= j < |blocks'|
      ensures BlockIn(mem', OffsetOf(blocks', j), NextOf(blocks', j), blocks'[j])
    {
      PlacesAfterAppend(blocks, b, j);
      if j < |blocks| {
        assert BlockIn(mem, OffsetOf(blocks, j), NextOf(blocks, j), blocks[j]);
        hide OffsetOf, NextOf, BlockIn, KeptExcept;
        OldBlockKept(mem, mem', blocks, j);
      }
    }
  }

  /** Appending moves no block; each one's next is the offset after it. */
  lemma PlacesAfterAppend(blocks: seq<Block>, b: Block, j: nat)
    requires j <= |blocks|
    ensures OffsetOf(blocks + [b], j) == OffsetOf(blocks, j)
    ensures NextOf(blocks + [b], j) == if j < |blocks| then OffsetOf(blocks, j + 1) else 0
  {
    SameOffsets(blocks, blocks + [b], j);
    if j < |blocks| {
      SameOffsets(blocks, blocks + [b], j + 1);
    }
  }

  lemma OldBlockKept(mem: Memory, mem': Memory, blocks: seq<Block>, j: nat)
    requires j < |blocks| && BlockIn(mem, OffsetOf(blocks, j), NextOf(blocks, j), blocks[j])
    requires KeptExcept(mem, mem', WordAt(FreeOffset(blocks), 0), LinkWord(blocks))
    requires LinkWord(blocks) + 2 <= |mem'| && Word64(mem', LinkWord(blocks)) == FreeOffset(blocks)
    ensures BlockIn(mem', OffsetOf(blocks, j), OffsetOf(blocks, j + 1), blocks[j])
  {
    hide BlockIn, KeptExcept, BlockSize;
    var last, o, b := |blocks| - 1, OffsetOf(blocks, j), blocks[j];
    Extent(b, o);
    if j < last {
      OffsetsAscend(blocks, j, last);
      OffsetsAscend(blocks, last, |blocks|);
      KeptBefore(mem, mem', WordAt(FreeOffset(blocks), 0), LinkWord(blocks), o, NextOf(blocks, j), b);
    } else {
      Relinked(mem, mem', WordAt(FreeOffset(blocks), 0), o, FreeOffset(blocks), b);
    }
  }

  lemma KeptBefore(mem: Memory, mem': Memory, limit: nat, link: nat, offset: nat, next: nat, b: Block)
    requires KeptExcept(mem, mem', limit, link) && BlockIn(mem, offset, next, b)
    requires WordAt(offset, 5) + |b.values| <= link <= limit
    ensures BlockIn(mem', offset, next, b)
  {
    BlockInSame(mem, mem', offset, next, b);
  }

  lemma Relinked(mem: Memory, mem': Memory, limit: nat, offset: nat, next: nat, b: Block)
    requires KeptExcept(mem, mem', limit, WordAt(offset, 0)) && BlockIn(mem, offset, 0, b)
    requires WordAt(offset, 5) + |b.values| <= limit && Word64(mem', WordAt(offset, 0)) == next
    ensures BlockIn(mem', offset, next, b)
  {
    var w := WordAt(offset, 5);
    assert mem'[w..w + |b.values|] == mem[w..w + |b.values|];
  }

  // ---------- the list, with the sizes the header keeps track of ----------

  /** Blocks are never empty and their counts fit the 32-bit count field. */
  ghost predicate Sized(blocks: seq<Block>) {
    forall i :: 0 <= i < |blocks| ==> 0 < |blocks[i].values| < UINT32_RANGE
  }

  /** The list after block i's state and count words are rewritten: same places, one state changed. */
  lemma {:induction false} BlockMarked(mem: Memory, blocks: seq<Block>, i: nat, state: State)
    requires Layout(mem, blocks) && Sized(blocks) && i < |blocks|
    ensures var o, b := OffsetOf(blocks, i), blocks[i].(state := state);
            && WordAt(o, 5) <= |mem|
            && Layout(Rewritten(mem, o, b), blocks[i := b]) && Sized(blocks[i := b])
            && FreeOffset(blocks[i := b]) == FreeOffset(blocks)
            && CountProcessed(blocks[i := b]) == CountProcessed(blocks)
                 - (if blocks[i].state.Processed? then 1 else 0) + (if state.Processed? then 1 else 0)
  {
    assert 0 < |blocks[i].values| < UINT32_RANGE;
    SizedMarked(blocks, i, state);
    hide *;
    StateRewritten(mem, blocks, i, state);
    EndMarked(blocks, i, state);
    CountAfterChange(blocks, i, state);
  }

  lemma SizedMarked(blocks: seq<Block>, i: nat, state: State)
    requires Sized(blocks) && i < |blocks|
    ensures Sized(blocks[i := blocks[i].(state := state)])
  {
    hide OffsetOf;
  }

  lemma EndMarked(blocks: seq<Block>, i: nat, state: State)
    requires i < |blocks|
    ensures FreeOffset(blocks[i := blocks[i].(state := state)]) == FreeOffset(blocks)
  {
    SameOffsets(blocks, blocks[i := blocks[i].(state := state)], |blocks|);
  }
}
