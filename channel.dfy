/**
 * A connection's channel (channel.go): a bounded queue of outgoing payloads drained by a
 * write loop, a read loop that dispatches incoming frames, and a close that runs once.
 *
 * The write loop, the read loop and `Close` run on their own goroutines in the source;
 * here each is an event on the channel's state. The connection underneath is seen
 * through the frames written to it and the flushes made, and its failures are
 * parameters.
 */
module Channel {
  import opened Wrappers
  import opened GoStrings
  import opened Cim
  import Constants

  /** The capacity of the outgoing queue. */
  const QueueCapacity: nat := 5

  /** An incoming event of the read loop: a frame, or a failed deadline or read. */
  datatype Incoming = Got(op: byte, payload: seq<byte>) | ReadFailed

  /** How the read loop stops, or that it is still waiting for the next frame. */
  datatype ReadOutcome = Waiting | RemoteClosed | ReadError | PongFailed

  /** What a run of the read loop did: how it ended, what it dispatched, how many pongs it wrote. */
  datatype ReadRun = ReadRun(outcome: ReadOutcome, dispatched: seq<seq<byte>>, pongs: nat)

  /** How one turn of the write loop ends. */
  datatype WriteOutcome = Idle | Flushed | QueueClosed | ClosedSignal | WriteFailed | FlushFailed

  /**
   * The read loop's rule, frame by frame: a close frame ends it with an error; a ping is
   * answered with a pong (a failed pong ends it) and then handled like any frame; an
   * empty payload is skipped; any other payload goes to the listener. `pongOk[k]` is
   * whether the pong for the k-th frame can be written.
   */
  function ReadSpec(frames: seq<Incoming>, pongOk: seq<bool>): (r: ReadRun)
    requires |pongOk| == |frames|
    decreases |frames|
  {
    if frames == [] then ReadRun(Waiting, [], 0)
    else match frames[0]
      case ReadFailed => ReadRun(ReadError, [], 0)
      case Got(op, payload) =>
        if op == OpClose then ReadRun(RemoteClosed, [], 0)
        else if op == OpPing && !pongOk[0] then ReadRun(PongFailed, [], 0)
        else
          var rest := ReadSpec(frames[1..], pongOk[1..]);
          ReadRun(rest.outcome,
                  (if |payload| == 0 then [] else [payload]) + rest.dispatched,
                  (if op == OpPing then 1 else 0) + rest.pongs)
  }

  /**
   * What any run of the read loop does: only non-empty payloads reach the listener, at
   * most one per frame and at most one pong per frame; and a run that is still waiting
   * met no failed read, no close frame and no failed pong.
   */
  lemma {:induction false} ReadSpecBounds(frames: seq<Incoming>, pongOk: seq<bool>)
    requires |pongOk| == |frames|
    ensures var r := ReadSpec(frames, pongOk);
      (forall k :: 0 <= k < |r.dispatched| ==> |r.dispatched[k]| > 0) &&
      |r.dispatched| <= |frames| && r.pongs <= |frames| &&
      (r.outcome == Waiting ==>
        forall k :: 0 <= k < |frames| ==> frames[k].Got? && frames[k].op != OpClose && (frames[k].op == OpPing ==> pongOk[k]))
    decreases |frames|
  {
    if frames != [] && frames[0].Got? && frames[0].op != OpClose && !(frames[0].op == OpPing && !pongOk[0]) {
      ReadSpecBounds(frames[1..], pongOk[1..]);
      var rest := ReadSpec(frames[1..], pongOk[1..]);
      if rest.outcome == Waiting {
        forall k | 0 <= k < |frames|
          ensures frames[k].Got? && frames[k].op != OpClose && (frames[k].op == OpPing ==> pongOk[k])
        {
          if k > 0 {
            assert frames[k] == frames[1..][k - 1] && pongOk[k] == pongOk[1..][k - 1];
          }
        }
      }
    }
  }

  /** The payloads the listener sees from frames none of which stops the loop. */
  function NonEmptyPayloads(frames: seq<Incoming>): (ps: seq<seq<byte>>)
    requires forall k :: 0 <= k < |frames| ==> frames[k].Got?
    ensures forall k :: 0 <= k < |ps| ==> |ps[k]| > 0
    ensures |ps| <= |frames|
  {
    if frames == [] then []
    else (if |frames[0].payload| == 0 then [] else [frames[0].payload]) + NonEmptyPayloads(frames[1..])
  }

  function PingCount(frames: seq<Incoming>): (n: nat)
    requires forall k :: 0 <= k < |frames| ==> frames[k].Got?
    ensures n <= |frames|
  {
    if frames == [] then 0 else (if frames[0].op == OpPing then 1 else 0) + PingCount(frames[1..])
  }

  /**
   * When no frame is a close frame and every pong can be written, the loop is still
   * waiting at the end, has dispatched exactly the non-empty payloads in arrival order,
   * and has answered every ping.
   */
  lemma {:induction false} ReadSpecDispatchesAll(frames: seq<Incoming>, pongOk: seq<bool>)
    requires |pongOk| == |frames|
    requires forall k :: 0 <= k < |frames| ==> frames[k].Got? && frames[k].op != OpClose && pongOk[k]
    ensures ReadSpec(frames, pongOk) == ReadRun(Waiting, NonEmptyPayloads(frames), PingCount(frames))
    decreases |frames|
  {
    if frames != [] {
      ReadSpecDispatchesAll(frames[1..], pongOk[1..]);
    }
  }

  /** Whatever stops the loop, only non-empty payloads reach the listener. */
  lemma {:induction false} ReadSpecDispatchesNonEmpty(frames: seq<Incoming>, pongOk: seq<bool>)
    requires |pongOk| == |frames|
    ensures forall k :: 0 <= k < |ReadSpec(frames, pongOk).dispatched| ==> |ReadSpec(frames, pongOk).dispatched[k]| > 0
    ensures |ReadSpec(frames, pongOk).dispatched| <= |frames|
    decreases |frames|
  {
    if frames != [] && frames[0].Got? {
      ReadSpecDispatchesNonEmpty(frames[1..], pongOk[1..]);
    }
  }

  /** Nothing after a stopping frame is looked at: a close frame hides every later frame. */
  lemma {:induction false} ReadSpecStopsAtClose(before: seq<Incoming>, payload: seq<byte>, after: seq<Incoming>,
                                                 pongOk: seq<bool>)
    requires |pongOk| == |before| + 1 + |after|
    requires forall k :: 0 <= k < |before| ==> before[k].Got? && before[k].op != OpClose && pongOk[k]
    ensures ReadSpec(before + [Got(OpClose, payload)] + after, pongOk) ==
      ReadRun(RemoteClosed, NonEmptyPayloads(before), PingCount(before))
    decreases |before|
  {
    var frames := before + [Got(OpClose, payload)] + after;
    if before == [] {
      assert frames[0] == Got(OpClose, payload);
    } else {
      assert frames[1..] == before[1..] + [Got(OpClose, payload)] + after;
      ReadSpecStopsAtClose(before[1..], payload, after, pongOk[1..]);
    }
  }

  /** The payloads of a batch, written as binary frames. */
  function BinaryFrames(payloads: seq<seq<byte>>): (fs: seq<(byte, seq<byte>)>)
    ensures |fs| == |payloads|
    ensures forall k :: 0 <= k < |fs| ==> fs[k] == (OpBinary, payloads[k])
  {
    if payloads == [] then [] else [(OpBinary, payloads[0])] + BinaryFrames(payloads[1..])
  }

  lemma BinaryFramesAppend(payloads: seq<seq<byte>>, p: seq<byte>)
    ensures BinaryFrames(payloads + [p]) == BinaryFrames(payloads) + [(OpBinary, p)]
  {
    assert |BinaryFrames(payloads + [p])| == |BinaryFrames(payloads) + [(OpBinary, p)]|;
  }

  class ChannelImpl {
    const id: string
    /** Payloads pushed and not yet taken by the write loop, oldest first. */
    var queue: seq<seq<byte>>
    var queueClosed: bool
    var closedFired: bool
    /** How many times `Close`'s body has run. */
    var closeRuns: nat
    var writeWait: nat
    var readWait: nat
    /** Frames written to the connection, oldest first, and the number of flushes. */
    var written: seq<(byte, seq<byte>)>
    var flushes: nat
    /** Payloads handed to the listener. */
    var dispatched: seq<seq<byte>>

    /** The queue never exceeds its capacity, and `Close` runs its body at most once. */
    ghost predicate Valid()
      reads this
    {
      |queue| <= QueueCapacity &&
      closeRuns == (if closedFired then 1 else 0) &&
      queueClosed == closedFired
    }

    /** `NewChannel`: an empty open queue, with the default write and read waits. */
    constructor (id: string)
      ensures Valid() && this.id == id
      ensures queue == [] && !queueClosed && !closedFired && closeRuns == 0
      ensures writeWait == Constants.DefaultWriteWait && readWait == Constants.DefaultReadWait
      ensures written == [] && flushes == 0 && dispatched == []
    {
      this.id := id;
      queue := [];
      queueClosed, closedFired := false, false;
      closeRuns := 0;
      writeWait, readWait := Constants.DefaultWriteWait, Constants.DefaultReadWait;
      written, flushes := [], 0;
      dispatched := [];
    }

    function ID(): (r: string)
      reads this
      ensures r == id
    {
      id
    }

    /**
     * `Push`: refused once the channel is closed; otherwise the payload joins the tail of
     * the queue. On a full queue the source's send waits for the write loop; the model
     * reports that as `blocked` and leaves the queue alone.
     */
    method Push(payload: seq<byte>) returns (err: Option<string>, blocked: bool)
      requires Valid()
      modifies this`queue
      ensures Valid()
      ensures old(closedFired) ==> err == Some("channel " + id + " has closed") && !blocked && queue == old(queue)
      ensures !old(closedFired) && |old(queue)| == QueueCapacity ==> err.None? && blocked && queue == old(queue)
      ensures !old(closedFired) && |old(queue)| < QueueCapacity ==> err.None? && !blocked && queue == old(queue) + [payload]
    {
      if closedFired {
        return Some("channel " + id + " has closed"), false;
      }
      if |queue| == QueueCapacity {
        return None, true;
      }
      queue := queue + [payload];
      err, blocked := None, false;
    }

    /** `Close`: the first call closes the queue and fires the closed event; every call returns nil. */
    method Close() returns (err: Option<string>)
      requires Valid()
      modifies this`queueClosed, this`closedFired, this`closeRuns
      ensures Valid() && err.None? && closedFired && queueClosed
      ensures closeRuns == 1 && (old(closedFired) ==> closeRuns == old(closeRuns))
    {
      if !closedFired {
        queueClosed := true;
        closedFired := true;
        closeRuns := closeRuns + 1;
      }
      err := None;
    }

    method SetWriteWait(d: nat)
      modifies this`writeWait
      ensures writeWait == if d == 0 then old(writeWait) else d
    {
      if d == 0 {
        return;
      }
      writeWait := d;
    }

    method SetReadWait(d: nat)
      modifies this`readWait
      ensures readWait == if d == 0 then old(readWait) else d
    {
      if d == 0 {
        return;
      }
      readWait := d;
    }

    /**
     * One turn of the write loop. With payloads queued (and the select not taking the
     * closed signal) it writes the first one, then the ones queued at that instant, as
     * binary frames in FIFO order, and flushes once; the frame at position `failAt` of
     * the batch fails to be written and ends the loop, as does a failed flush. When the
     * select takes the closed signal (`pickClosed`, once it has fired) the loop ends with
     * nil; with the queue closed and drained it ends with "channel closed"; with nothing
     * to do it keeps waiting.
     */
    method WriteStep(pickClosed: bool, failAt: Option<nat>, flushOk: bool) returns (r: WriteOutcome)
      requires Valid()
      modifies this`queue, this`written, this`flushes
      ensures Valid()
      ensures old(closedFired) && pickClosed ==>
        r == ClosedSignal && queue == old(queue) && written == old(written) && flushes == old(flushes)
      ensures old(closedFired) && !pickClosed && old(queue) == [] ==>
        r == QueueClosed && queue == old(queue) && written == old(written) && flushes == old(flushes)
      ensures !old(closedFired) && old(queue) == [] ==>
        r == Idle && queue == old(queue) && written == old(written) && flushes == old(flushes)
      ensures old(queue) != [] && !(old(closedFired) && pickClosed) ==>
        var batch := old(queue);
        if failAt.Some? && failAt.value < |batch| then
          r == WriteFailed && queue == batch[failAt.value + 1..] &&
          written == old(written) + BinaryFrames(batch[..failAt.value]) && flushes == old(flushes)
        else
          queue == [] && written == old(written) + BinaryFrames(batch) &&
          flushes == old(flushes) + 1 && r == (if flushOk then Flushed else FlushFailed)
    {
      if closedFired && pickClosed {
        return ClosedSignal;
      }
      if queue == [] {
        // a closed queue, once drained, reports "channel closed"
        return if queueClosed then QueueClosed else Idle;
      }
      ghost var batch := queue;
      var payload := queue[0];
      queue := queue[1..];
      if failAt == Some(0) {
        return WriteFailed;
      }
      written := written + [(OpBinary, payload)];
      assert batch[..1] == [payload];
      var chanLen := |queue|;
      var i := 0;
      while i < chanLen
        invariant 0 <= i <= chanLen && chanLen == |batch| - 1
        invariant queue == batch[i + 1..]
        invariant written == old(written) + BinaryFrames(batch[..i + 1])
        invariant flushes == old(flushes)
        invariant failAt.Some? && failAt.value < |batch| ==> failAt.value > i
      {
        payload := queue[0];
        queue := queue[1..];
        if failAt == Some(i + 1) {
          return WriteFailed;
        }
        BinaryFramesAppend(batch[..i + 1], payload);
        assert batch[..i + 2] == batch[..i + 1] + [payload];
        written := written + [(OpBinary, payload)];
        i := i + 1;
      }
      assert batch[..i + 1] == batch;
      flushes := flushes + 1;
      r := if flushOk then Flushed else FlushFailed;
    }

    /**
     * `ReadLoop` over the frames that arrive: pongs are written as they are due and
     * payloads go to the listener, as `ReadSpec` says.
     */
    method ReadLoop(frames: seq<Incoming>, pongOk: seq<bool>) returns (r: ReadOutcome)
      requires |pongOk| == |frames|
      modifies this`written, this`dispatched
      ensures var run := ReadSpec(frames, pongOk);
        r == run.outcome && dispatched == old(dispatched) + run.dispatched &&
        |written| == |old(written)| + run.pongs && written[..|old(written)|] == old(written) &&
        forall k :: |old(written)| <= k < |written| ==> written[k] == (OpPong, [])
    {
      var i := 0;
      while i < |frames|
        invariant 0 <= i <= |frames|
        invariant |old(dispatched)| <= |dispatched| && dispatched[..|old(dispatched)|] == old(dispatched)
        invariant |old(written)| <= |written| && written[..|old(written)|] == old(written)
        invariant ReadSpec(frames, pongOk) ==
          var rest := ReadSpec(frames[i..], pongOk[i..]);
          ReadRun(rest.outcome, dispatched[|old(dispatched)|..] + rest.dispatched, |written| - |old(written)| + rest.pongs)
        invariant forall k :: |old(written)| <= k < |written| ==> written[k] == (OpPong, [])
      {
        var f := frames[i];
        if f.ReadFailed? {
          return ReadError;
        }
        if f.op == OpClose {
          return RemoteClosed;
        }
        if f.op == OpPing {
          if !pongOk[i] {
            return PongFailed;
          }
          written := written + [(OpPong, [])];
        }
        if |f.payload| > 0 {
          dispatched := dispatched + [f.payload];
        }
        assert frames[i..][1..] == frames[i + 1..] && pongOk[i..][1..] == pongOk[i + 1..];
        i := i + 1;
      }
      r := Waiting;
    }
  }
}
