/**
 The output buffer of one Codex execution: what its reader thread, its waiter thread and
 its pollers do to it while they hold its lock.
 */
module ExecOutput {
  import opened Wrappers
  import opened Bytes

  const MAX_OUTPUT_BYTES: nat := 2 * 1024 * 1024
  /** The reader's buffer: one read returns at most this much. */
  const READ_BYTES: nat := 8 * 1024
  const RESPONSE_CHUNKS: nat := 128

  datatype Chunk = Chunk(sequence: nat, data: seq<Byte>)

  datatype Output = Output(
    chunks: seq<Chunk>, bufferedBytes: nat, nextSequence: nat,
    readerClosed: bool, exitCode: Option<int>, authCache: Option<string>)
  {
    predicate Exited() { readerClosed && exitCode.Some? }

    /** The first sequence that is still buffered, or the next one to come. */
    function Front(): int { nextSequence - |chunks| }
  }

  datatype Response = Response(
    chunks: seq<Chunk>, nextSequence: nat, exited: bool, exitCode: Option<int>, authCache: Option<string>)

  const FRESH := Output([], 0, 1, false, None, None)

  function SaturatingSub(a: nat, b: nat): nat { if a < b then 0 else a - b }

  function ChunkBytes(cs: seq<Chunk>): nat {
    if cs == [] then 0 else |cs[0].data| + ChunkBytes(cs[1..])
  }

  // ---------- The critical sections ----------

  function Append(o: Output, data: seq<Byte>): Output {
    o.(chunks := o.chunks + [Chunk(o.nextSequence, data)],
       bufferedBytes := o.bufferedBytes + |data|,
       nextSequence := o.nextSequence + 1)
  }

  function PopFront(o: Output): Output
    requires o.chunks != []
  {
    o.(chunks := o.chunks[1..], bufferedBytes := SaturatingSub(o.bufferedBytes, |o.chunks[0].data|))
  }

  /** A poll's acknowledgement: drop what lies before `after`. */
  function Discard(o: Output, after: nat): Output
    decreases |o.chunks|
  {
    if o.chunks != [] && o.chunks[0].sequence < after then Discard(PopFront(o), after) else o
  }

  function Respond(o: Output): Response {
    Response(
      if |o.chunks| <= RESPONSE_CHUNKS then o.chunks else o.chunks[..RESPONSE_CHUNKS],
      o.nextSequence, o.Exited(), o.exitCode, o.authCache)
  }

  /** Whether a poll sleeps before it answers. */
  predicate MustWait(o: Output, waitMilliseconds: nat) {
    o.chunks == [] && !o.Exited() && waitMilliseconds > 0
  }

  // ---------- What the buffer is ----------

  /** `o` buffers a suffix of `history`, everything the reader has appended: consecutive
      sequences ending just before the next one, an exact byte count, and at most one read
      beyond the limit. */
  ghost predicate Buffers(o: Output, history: seq<seq<Byte>>) {
    && o.nextSequence == |history| + 1
    && |o.chunks| <= |history|
    && (forall i :: 0 <= i < |o.chunks| ==>
          o.chunks[i] == Chunk(o.Front() + i, history[o.Front() + i - 1]))
    && o.bufferedBytes == ChunkBytes(o.chunks)
    && o.bufferedBytes < MAX_OUTPUT_BYTES + READ_BYTES
    && (forall i :: 0 <= i < |history| ==> 0 < |history[i]| <= READ_BYTES)
  }

  lemma {:induction false} ChunkBytesAppend(cs: seq<Chunk>, c: Chunk)
    ensures ChunkBytes(cs + [c]) == ChunkBytes(cs) + |c.data|
  {
    if cs != [] {
      ChunkBytesAppend(cs[1..], c);
      assert (cs + [c])[1..] == cs[1..] + [c];
    }
  }

  /** The reader appends only below the limit, so one read is all that can exceed it. */
  lemma AppendBuffers(o: Output, history: seq<seq<Byte>>, data: seq<Byte>)
    requires Buffers(o, history) && o.bufferedBytes < MAX_OUTPUT_BYTES && 0 < |data| <= READ_BYTES
    ensures Buffers(Append(o, data), history + [data])
  {
    ChunkBytesAppend(o.chunks, Chunk(o.nextSequence, data));
  }

  /** Dropping the front never takes the subtraction below zero. */
  lemma PopFrontBuffers(o: Output, history: seq<seq<Byte>>)
    requires Buffers(o, history) && o.chunks != []
    ensures Buffers(PopFront(o), history)
    ensures PopFront(o).bufferedBytes == o.bufferedBytes - |o.chunks[0].data|
    ensures PopFront(o).Front() == o.Front() + 1
  {
  }

  /** A poll drops exactly the chunks before `after` and changes nothing else. */
  lemma {:induction false} DiscardBuffers(o: Output, history: seq<seq<Byte>>, after: nat)
    requires Buffers(o, history)
    ensures Buffers(Discard(o, after), history)
    ensures var d := Discard(o, after);
            && d.Front() == (if after <= o.Front() then o.Front()
                             else if after < o.nextSequence then after else o.nextSequence)
            && d == o.(chunks := d.chunks, bufferedBytes := d.bufferedBytes)
    decreases |o.chunks|
  {
    if o.chunks != [] && o.chunks[0].sequence < after {
      PopFrontBuffers(o, history);
      DiscardBuffers(PopFront(o), history, after);
    }
  }

  /** Discarding twice with the same cursor, or again with an older one, is discarding once:
      a retried poll loses nothing. */
  lemma DiscardRetry(o: Output, history: seq<seq<Byte>>, older: nat, after: nat)
    requires Buffers(o, history) && older <= after
    ensures Discard(Discard(o, after), older) == Discard(o, after)
    ensures Discard(Discard(o, older), after) == Discard(o, after)
  {
    var once := Discard(o, after);
    DiscardBuffers(o, history, after);
    DiscardBuffers(o, history, older);
    DiscardBuffers(Discard(o, older), history, after);
    BuffersUnique(Discard(Discard(o, older), after), once, history);
  }

  lemma BuffersUnique(o: Output, p: Output, history: seq<seq<Byte>>)
    requires Buffers(o, history) && Buffers(p, history) && o.Front() == p.Front()
    requires p == o.(chunks := p.chunks, bufferedBytes := p.bufferedBytes)
    ensures o == p
  {
    assert |o.chunks| == |p.chunks|;
    assert forall i :: 0 <= i < |o.chunks| ==> o.chunks[i] == p.chunks[i];
    assert o.chunks == p.chunks;
  }

  /** A poll is answered at once exactly if it asks for no wait, or the session has ended, or something
      at or after its cursor is there. */
  lemma AnsweredAtOnceIff(o: Output, history: seq<seq<Byte>>, after: nat, waitMilliseconds: nat)
    requires Buffers(o, history)
    ensures !MustWait(Discard(o, after), waitMilliseconds)
            <==> || waitMilliseconds == 0
                 || (o.readerClosed && o.exitCode.Some?)
                 || exists i :: 0 <= i < |o.chunks| && o.chunks[i].sequence >= after
  {
    var d := Discard(o, after);
    DiscardBuffers(o, history, after);
    if o.chunks != [] {
      assert o.chunks[|o.chunks| - 1].sequence == o.nextSequence - 1;
    }
    assert forall i :: 0 <= i < |o.chunks| ==> o.chunks[i].sequence == o.Front() + i;
  }

  // ---------- The buffer in place ----------

  /** On the way from `start` some chunks before `after` have been dropped, and nothing else. */
  ghost predicate Acknowledging(start: Output, o: Output, after: nat) {
    && |o.chunks| <= |start.chunks|
    && o.chunks == start.chunks[|start.chunks| - |o.chunks|..]
    && (forall i :: 0 <= i < |start.chunks| - |o.chunks| ==> start.chunks[i].sequence < after)
    && Discard(o, after) == Discard(start, after)
  }

  lemma AcknowledgeOne(start: Output, o: Output, history: seq<seq<Byte>>, after: nat)
    requires Buffers(o, history) && Acknowledging(start, o, after)
    requires o.chunks != [] && o.chunks[0].sequence < after
    ensures Buffers(PopFront(o), history) && Acknowledging(start, PopFront(o), after)
  {
    PopFrontBuffers(o, history);
    assert start.chunks[|start.chunks| - |o.chunks|] == o.chunks[0];
  }

  lemma AcknowledgeEnds(start: Output, o: Output, history: seq<seq<Byte>>, after: nat)
    requires Buffers(o, history) && Acknowledging(start, o, after)
    requires o.chunks == [] || o.chunks[0].sequence >= after
    ensures o == Discard(start, after)
    ensures forall c :: c in o.chunks <==> c in start.chunks && c.sequence >= after
  {
    forall i | 0 <= i < |o.chunks| ensures o.chunks[i].sequence >= after {
      assert o.chunks[i].sequence == o.Front() + i;
    }
  }

  class CodexExecOutput {
    var chunks: seq<Chunk>
    var bufferedBytes: nat
    var nextSequence: nat
    var readerClosed: bool
    var exitCode: Option<int>
    var authCache: Option<string>
    /** Everything appended since the start. */
    ghost var history: seq<seq<Byte>>

    function State(): Output
      reads this
    {
      Output(chunks, bufferedBytes, nextSequence, readerClosed, exitCode, authCache)
    }

    ghost predicate Valid()
      reads this
    {
      Buffers(State(), history)
    }

    constructor ()
      ensures Valid() && State() == FRESH && history == []
    {
      chunks, bufferedBytes, nextSequence := [], 0, 1;
      readerClosed, exitCode, authCache := false, None, None;
      history := [];
    }

    /** The reader's section once there is room. */
    method Push(data: seq<Byte>)
      requires Valid() && bufferedBytes < MAX_OUTPUT_BYTES && 0 < |data| <= READ_BYTES
      modifies this
      ensures Valid() && State() == Append(old(State()), data) && history == old(history) + [data]
    {
      AppendBuffers(State(), history, data);
      var sequence := nextSequence;
      nextSequence := nextSequence + 1;
      bufferedBytes := bufferedBytes + |data|;
      chunks := chunks + [Chunk(sequence, data)];
      history := history + [data];
    }

    method CloseReader()
      requires Valid()
      modifies this`readerClosed
      ensures Valid() && State() == old(State()).(readerClosed := true)
    {
      readerClosed := true;
    }

    method RecordExit(code: int, updatedAuthCache: Option<string>)
      requires Valid()
      modifies this`exitCode, this`authCache
      ensures Valid() && State() == old(State()).(exitCode := Some(code), authCache := updatedAuthCache)
    {
      exitCode := Some(code);
      authCache := updatedAuthCache;
    }

    /** The discard loop at the head of a poll. */
    method Acknowledge(after: nat)
      requires Valid()
      modifies this`chunks, this`bufferedBytes
      ensures Valid() && State() == Discard(old(State()), after)
      ensures forall c :: c in chunks <==> c in old(chunks) && c.sequence >= after
    {
      ghost var start := State();
      assert start.chunks[|start.chunks| - |chunks|..] == chunks;
      while chunks != [] && chunks[0].sequence < after
        invariant Valid() && Acknowledging(start, State(), after)
      {
        AcknowledgeOne(start, State(), history, after);
        var chunk := chunks[0];
        chunks := chunks[1..];
        bufferedBytes := SaturatingSub(bufferedBytes, |chunk.data|);
      }
      AcknowledgeEnds(start, State(), history, after);
    }

    /** What a poll answers under the lock. */
    method Answer() returns (r: Response)
      requires Valid()
      ensures r == Respond(State())
    {
      var taken: seq<Chunk> := [];
      var n := if |chunks| < RESPONSE_CHUNKS then |chunks| else RESPONSE_CHUNKS;
      for i := 0 to n
        invariant taken == chunks[..i]
      {
        taken := taken + [chunks[i]];
      }
      r := Response(taken, nextSequence, readerClosed && exitCode.Some?, exitCode, authCache);
    }
  }
}
