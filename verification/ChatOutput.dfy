/** Writing frames in place, and the output buffer that both ends keep per connection. */
module ChatOutput {
  import opened Bytes
  import opened ChatCodec
  import opened ChatFraming

  const OUTPUT_CAPACITY := 4 * PACKET_MAX_SIZE

  method PutHeader(h: Header, buffer: array<byte>)
    requires h.kind < 0x100 && buffer.Length >= HEADER_SIZE
    modifies buffer
    ensures buffer[..HEADER_SIZE] == EncodeHeader(h)
    ensures forall i :: HEADER_SIZE <= i < buffer.Length ==> buffer[i] == old(buffer[i])
  {
    hide ToBytes;
    var at := Put(buffer, 0, ToBytes(MAGIC, 4));
    at := Put(buffer, at, [VERSION]);
    at := Put(buffer, at, [h.kind]);
    at := Put(buffer, at, ToBytes(0, 2));
    at := Put(buffer, at, ToBytes(h.bodySize, 4));
    assert buffer[..12] == HeaderFront(h);
    at := Put(buffer, at, ToBytes(h.senderId, 8));
    at := Put(buffer, at, ToBytes(h.transferId, 8));
    at := Put(buffer, at, ToBytes(h.nameSize, 2));
    at := Put(buffer, at, ToBytes(h.contentSize, 2));
    assert buffer[..32] == HeaderFront(h) + HeaderBack(h);
  }

  /** protocol_encode: everything or nothing is written. */
  method EncodeInto(m: Message, buffer: array<byte>, capacity: nat) returns (ok: bool, size: nat)
    requires WellTyped(m) && capacity <= buffer.Length
    modifies buffer
    ensures ok <==> Encodable(m) && |Frame(m)| <= capacity
    ensures size == if ok then |Frame(m)| else 0
    ensures ok ==> buffer[..size] == Frame(m)
    ensures buffer[size..] == old(buffer[size..])
  {
    hide EncodeHeader, ContentOf, NameOf, ToBytes, FromBytes, WellTyped;
    if !Encodable(m) {
      return false, 0;
    }
    var name, content := NameOf(m), ContentOf(m).value;
    if capacity < HEADER_SIZE + |name| + |content| {
      return false, 0;
    }
    PutHeader(HeaderOf(m, name, content), buffer);
    var at := Put(buffer, HEADER_SIZE, name);
    size := Put(buffer, at, content);
    ok := true;
  }

  // ---------- the queue ----------

  datatype SendOutcome = Accepted(count: nat) | WouldBlock | SendFailed

  /**
   How many of the pending bytes a run of the sending loop hands over, and whether the connection
   survives it. The socket takes no more than it is offered; a script that ends would block.
   */
  function Flushing(outcomes: seq<SendOutcome>, pending: nat): (r: (nat, bool))
    ensures r.0 <= pending
    decreases |outcomes|
  {
    if pending == 0 || outcomes == [] || outcomes[0].WouldBlock? then (0, true)
    else if outcomes[0].SendFailed? || outcomes[0].count == 0 then (0, false)
    else
      var n := if outcomes[0].count < pending then outcomes[0].count else pending;
      var rest := Flushing(outcomes[1..], pending - n);
      (n + rest.0, rest.1)
  }

  /** What the first k calls of send could take. */
  function Offered(outcomes: seq<SendOutcome>, k: nat): nat
    requires k <= |outcomes|
  {
    if k == 0 then 0 else (if outcomes[0].Accepted? then outcomes[0].count else 0) + Offered(outcomes[1..], k - 1)
  }

  /**
   The loop goes on calling send while bytes are pending and some are taken: after k calls it has handed over
   all that they could take or all there was, and stops because nothing is left, because the socket would
   block, or, failing, because of anything else.
   */
  lemma {:induction false} FlushingMeans(outcomes: seq<SendOutcome>, pending: nat) returns (k: nat)
    ensures k <= |outcomes| && forall i :: 0 <= i < k ==> outcomes[i].Accepted? && outcomes[i].count > 0
    ensures k > 0 ==> Offered(outcomes, k - 1) < pending
    ensures var (n, ok) := Flushing(outcomes, pending);
            && n == (if Offered(outcomes, k) < pending then Offered(outcomes, k) else pending)
            && (n == pending ==> ok)
            && (n < pending ==>
                  && (k < |outcomes| ==> !outcomes[k].Accepted? || outcomes[k].count == 0)
                  && ok == (k == |outcomes| || outcomes[k].WouldBlock?))
    decreases |outcomes|
  {
    k := 0;
    if pending > 0 && outcomes != [] && outcomes[0].Accepted? && outcomes[0].count > 0 {
      var n := if outcomes[0].count < pending then outcomes[0].count else pending;
      k := FlushingMeans(outcomes[1..], pending - n);
      k := k + 1;
    }
  }

  /** One turn of the loop. */
  lemma FlushingStep(outcomes: seq<SendOutcome>, i: nat, pending: nat)
    requires i <= |outcomes|
    ensures Flushing(outcomes[i..], pending).0 <= pending
    ensures Flushing(outcomes[i..], pending) ==
            if pending == 0 || i == |outcomes| || outcomes[i].WouldBlock? then (0, true)
            else if outcomes[i].SendFailed? || outcomes[i].count == 0 then (0, false)
            else
              var n := if outcomes[i].count < pending then outcomes[i].count else pending;
              var rest := Flushing(outcomes[i + 1..], pending - n);
              (n + rest.0, rest.1)
  {
    if i < |outcomes| {
      assert outcomes[i..][0] == outcomes[i] && outcomes[i..][1..] == outcomes[i + 1..];
    }
  }

  /**
   How much of the pending bytes a client hands over before it closes: the sending loop runs again each
   time the socket reports room within a second, and `rounds` says what it does each time.
   */
  function Draining(rounds: seq<seq<SendOutcome>>, pending: nat): (n: nat)
    ensures n <= pending
    decreases |rounds|
  {
    if pending == 0 || rounds == [] then 0
    else
      var (n, ok) := Flushing(rounds[0], pending);
      if ok then n + Draining(rounds[1..], pending - n) else n
  }

  /** The calls of send before the first that would block. */
  function BeforeBlock(outcomes: seq<SendOutcome>): seq<SendOutcome> {
    if outcomes == [] || outcomes[0].WouldBlock? then [] else [outcomes[0]] + BeforeBlock(outcomes[1..])
  }

  function AllBeforeBlocks(rounds: seq<seq<SendOutcome>>): seq<SendOutcome> {
    if rounds == [] then [] else BeforeBlock(rounds[0]) + AllBeforeBlocks(rounds[1..])
  }

  lemma FlushingCons(first: SendOutcome, rest: seq<SendOutcome>, pending: nat)
    ensures Flushing([first] + rest, pending) ==
            if pending == 0 || first.WouldBlock? then (0, true)
            else if first.SendFailed? || first.count == 0 then (0, false)
            else
              var n := if first.count < pending then first.count else pending;
              (n + Flushing(rest, pending - n).0, Flushing(rest, pending - n).1)
    ensures Flushing([], pending) == (0, true) && Flushing(rest, 0) == (0, true)
  {
    assert ([first] + rest)[1..] == rest;
  }

  /** A loop that blocks goes on, at the next round, with what is left. */
  lemma {:induction false} FlushedAfterBlock(outcomes: seq<SendOutcome>, more: seq<SendOutcome>, pending: nat)
    ensures var (n, ok) := Flushing(outcomes, pending);
            n <= pending &&
            Flushing(BeforeBlock(outcomes) + more, pending) ==
            if ok then (n + Flushing(more, pending - n).0, Flushing(more, pending - n).1) else (n, false)
    decreases |outcomes|
  {
    hide Flushing, BeforeBlock;
    BeforeBlockStep(outcomes);
    if outcomes == [] || outcomes[0].WouldBlock? {
      FlushingCons(WouldBlock, if outcomes == [] then [] else outcomes[1..], pending);
      assert [] + more == more;
      assert outcomes != [] ==> [outcomes[0]] + outcomes[1..] == outcomes;
    } else {
      var first, rest := outcomes[0], outcomes[1..];
      assert [first] + rest == outcomes;
      FlushingCons(first, rest, pending);
      assert BeforeBlock(outcomes) + more == [first] + (BeforeBlock(rest) + more);
      FlushingCons(first, BeforeBlock(rest) + more, pending);
      if pending == 0 {
        FlushingCons(first, more, 0);
      } else if first.Accepted? && first.count > 0 {
        var n := if first.count < pending then first.count else pending;
        FlushedAfterBlock(rest, more, pending - n);
      }
    }
  }

  lemma BeforeBlockStep(outcomes: seq<SendOutcome>)
    ensures BeforeBlock(outcomes) ==
            if outcomes == [] || outcomes[0].WouldBlock? then [] else [outcomes[0]] + BeforeBlock(outcomes[1..])
  {
  }

  /** Draining is one run of the sending loop in which no call would block. */
  lemma {:induction false} DrainingMeans(rounds: seq<seq<SendOutcome>>, pending: nat)
    ensures Draining(rounds, pending) == Flushing(AllBeforeBlocks(rounds), pending).0
    decreases |rounds|
  {
    hide Flushing, BeforeBlock;
    if rounds == [] {
      FlushingCons(WouldBlock, [], pending);
    } else {
      FlushedAfterBlock(rounds[0], AllBeforeBlocks(rounds[1..]), pending);
      FlushingCons(WouldBlock, AllBeforeBlocks(rounds), pending);
      var (n, ok) := Flushing(rounds[0], pending);
      DrainingMeans(rounds[1..], pending - n);
    }
  }

  lemma {:induction false} ConcatAppend(frames: seq<seq<byte>>, frame: seq<byte>)
    ensures Concat(frames + [frame]) == Concat(frames) + frame
  {
    if frames == [] {
      assert Concat([frame]) == frame + Concat([]);
    } else {
      ConcatAppend(frames[1..], frame);
      assert (frames + [frame])[1..] == frames[1..] + [frame];
    }
  }

  /** `sent` and `frames` record what the peer was given and what was queued, since the connection began. */
  class OutputQueue {
    const output: array<byte>
    var offset: nat
    var size: nat
    ghost var sent: seq<byte>
    ghost var frames: seq<seq<byte>>

    /** Nothing queued is ever lost, cut, repeated or reordered. */
    ghost predicate Valid()
      reads this, output
    {
      && output.Length == OUTPUT_CAPACITY && offset <= size <= OUTPUT_CAPACITY
      && sent + Pending() == Concat(frames)
    }

    ghost function Pending(): seq<byte>
      reads this, output
    {
      if offset <= size <= output.Length then output[offset..size] else []
    }

    constructor ()
      ensures Valid() && fresh(output) && Pending() == [] && sent == [] && frames == []
    {
      output := new byte[OUTPUT_CAPACITY](_ => 0);
      offset, size, sent, frames := 0, 0, [], [];
    }

    /** The buffer of a slot that is given to a new connection. */
    method Reset()
      requires output.Length == OUTPUT_CAPACITY
      modifies this
      ensures Valid() && Pending() == [] && sent == [] && frames == []
    {
      offset, size, sent, frames := 0, 0, [], [];
    }

    /** Move what is pending to the front. */
    method Compact()
      requires Valid()
      modifies this`offset, this`size, output
      ensures Valid() && offset == 0 && Pending() == old(Pending())
    {
      ghost var pending := Pending();
      var pendingSize := size - offset;
      if offset != 0 && pendingSize != 0 {
        forall i | 0 <= i < pendingSize {
          output[i] := output[offset + i];
        }
      }
      offset, size := 0, pendingSize;
      assert Pending() == pending;
    }

    /** A frame goes in whole, or not at all. */
    method Queue(frame: seq<byte>) returns (queued: bool)
      requires Valid()
      modifies this, output
      ensures Valid() && sent == old(sent)
      ensures queued <==> |frame| <= OUTPUT_CAPACITY - |old(Pending())|
      ensures Pending() == old(Pending()) + (if queued then frame else [])
      ensures frames == old(frames) + (if queued then [frame] else [])
    {
      hide Concat;
      Compact();
      ghost var pending := Pending();
      assert pending == output[..size];
      if |frame| > OUTPUT_CAPACITY - size {
        return false;
      }
      var end := Put(output, size, frame);
      size := end;
      assert Pending() == output[..end] == pending + frame;
      AppendWhole(sent, pending, frames, frame);
      frames := frames + [frame];
      queued := true;
    }

    /** One successful send. */
    method Advance(n: nat)
      requires Valid() && n <= |Pending()|
      modifies this`offset, this`sent
      ensures Valid()
      ensures sent == old(sent) + old(Pending())[..n] && Pending() == old(Pending())[n..]
    {
      hide Concat;
      MoveOver(sent, Pending(), n);
      ghost var rest := Pending()[n..];
      sent := sent + Pending()[..n];
      offset := offset + n;
      assert Pending() == rest;
    }

    /** pending_output_size. */
    function PendingSize(): (n: nat)
      requires Valid()
      reads this, output
      ensures n == |Pending()|
    {
      size - offset
    }

    /** An empty buffer starts over at the front. */
    method Rewind()
      requires Valid() && Pending() == []
      modifies this`offset, this`size
      ensures Valid() && Pending() == []
    {
      offset, size := 0, 0;
    }

    /** The sending loop. */
    method Flush(outcomes: seq<SendOutcome>) returns (ok: bool)
      requires Valid()
      modifies this
      ensures Valid() && frames == old(frames)
      ensures var n := Flushing(outcomes, |old(Pending())|);
              && ok == n.1
              && sent == old(sent) + old(Pending())[..n.0] && Pending() == old(Pending())[n.0..]
    {
      hide Flushing, OutputQueue.Valid, OutputQueue.Pending, OutputQueue.PendingSize;
      ghost var pending, before, done: nat := Pending(), sent, 0;
      FlushingStep(outcomes, 0, |pending|);
      assert outcomes[0..] == outcomes;
      var i := 0;
      while PendingSize() > 0 && i < |outcomes|
        invariant i <= |outcomes| && done <= |pending|
        invariant Valid() && frames == old(frames)
        invariant sent == before + pending[..done] && Pending() == pending[done..]
        invariant Flushing(outcomes, |pending|).0 == done + Flushing(outcomes[i..], |pending| - done).0
        invariant Flushing(outcomes, |pending|).1 == Flushing(outcomes[i..], |pending| - done).1
        decreases |outcomes| - i
      {
        FlushingStep(outcomes, i, |pending| - done);
        if outcomes[i].WouldBlock? {
          return true;
        }
        if outcomes[i].SendFailed? || outcomes[i].count == 0 {
          return false;
        }
        var n := if outcomes[i].count < PendingSize() then outcomes[i].count else PendingSize();
        TakeMore(before, pending, done, n);
        Advance(n);
        done, i := done + n, i + 1;
      }
      FlushingStep(outcomes, i, |pending| - done);
      if PendingSize() == 0 {
        Rewind();
      }
      ok := true;
    }

    /** One more run of the sending loop on what is left of some pending bytes. */
    method FlushRest(outcomes: seq<SendOutcome>, ghost before: seq<byte>, ghost pending: seq<byte>, ghost done: nat)
      returns (ok: bool)
      requires Valid() && done <= |pending| && sent == before + pending[..done] && Pending() == pending[done..]
      modifies this
      ensures Valid() && frames == old(frames)
      ensures var (n, ended) := Flushing(outcomes, |pending| - done);
              ok == ended && sent == before + pending[..done + n] && Pending() == pending[done + n..]
    {
      hide Flushing, OutputQueue.Valid, OutputQueue.Pending;
      TakeMore(before, pending, done, Flushing(outcomes, |pending| - done).0);
      ok := Flush(outcomes);
    }

    /** drain_output. */
    method Drain(rounds: seq<seq<SendOutcome>>)
      requires Valid()
      modifies this
      ensures Valid() && frames == old(frames)
      ensures var n := Draining(rounds, |old(Pending())|);
              sent == old(sent) + old(Pending())[..n] && Pending() == old(Pending())[n..]
    {
      hide Flushing, OutputQueue.Valid, OutputQueue.Pending, OutputQueue.PendingSize, Draining;
      ghost var pending, before, done: nat := Pending(), sent, 0;
      assert rounds[0..] == rounds;
      var i, ok := 0, true;
      while ok && PendingSize() > 0 && i < |rounds|
        invariant i <= |rounds| && done <= |pending|
        invariant Valid() && frames == old(frames)
        invariant sent == before + pending[..done] && Pending() == pending[done..]
        invariant Draining(rounds, |pending|) == done + if ok then Draining(rounds[i..], |pending| - done) else 0
        decreases |rounds| - i
      {
        DrainingStep(rounds, i, |pending| - done);
        ok := FlushRest(rounds[i], before, pending, done);
        done, i := done + Flushing(rounds[i], |pending| - done).0, i + 1;
      }
      DrainingStep(rounds, i, |pending| - done);
    }
  }

  lemma DrainingStep(rounds: seq<seq<SendOutcome>>, i: nat, pending: nat)
    requires i <= |rounds|
    ensures Draining(rounds[i..], pending) ==
            if pending == 0 || i == |rounds| then 0
            else
              var r := Flushing(rounds[i], pending);
              r.0 + if r.1 then Draining(rounds[i + 1..], pending - r.0) else 0
  {
    hide Flushing;
    if i < |rounds| {
      assert rounds[i..][0] == rounds[i] && rounds[i..][1..] == rounds[i + 1..];
    }
  }

  lemma AppendWhole(sent: seq<byte>, pending: seq<byte>, frames: seq<seq<byte>>, frame: seq<byte>)
    requires sent + pending == Concat(frames)
    ensures sent + (pending + frame) == Concat(frames + [frame])
  {
    ConcatAppend(frames, frame);
  }

  lemma TakeMore(before: seq<byte>, s: seq<byte>, done: nat, n: nat)
    requires done + n <= |s|
    ensures before + s[..done] + s[done..][..n] == before + s[..done + n] && s[done..][n..] == s[done + n..]
  {
  }

  lemma MoveOver(a: seq<byte>, b: seq<byte>, n: nat)
    requires n <= |b|
    ensures a + b[..n] + b[n..] == a + b
  {
  }
}
