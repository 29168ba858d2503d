/** Server/ClientSession.cs: the earlier revision of the server's
    per-client session, the one PollingServer uses. It has no session
    states: it queues frames for the client unconditionally, answers each
    poll with the head of the queue stamped by a wrapping counter, and feeds
    the client's data frames into a reorder buffer. `received` records the
    FrameReceived events, in order. */
module ClientSessions {
  import opened Wrappers
  import opened Frames
  import opened SequenceCounters
  import opened FrameBufferSpec
  import opened FrameBuffers
  import opened ServerSessions

  /** The exceptions of `HandleClientFrame`: the cast of a frame that is
      not a data frame, and the frame buffer's refusal of a data frame. */
  datatype HandleError =
    | InvalidCast
    | BufferRefused(error: AddError)

  /** The buffer's part in `HandleClientFrame`: a null frame is skipped, a
      data frame is added, and any other frame fails the cast. */
  ghost function CastAndFeed(st: BufferState, clientFrame: Option<ClientFrame>): (o: Result<AddOutcome, HandleError>)
    requires Inv(st)
  {
    if clientFrame.None? then Ok(AddOutcome(st, Ok([])))
    else if clientFrame.value.ClientPoll? then Err(InvalidCast)
    else Ok(AddFrame(st, clientFrame.value))
  }

  /** What `HandleClientFrame` returns, given the buffer, the outgoing queue
      and the counter before the call. */
  ghost function Answer(st: BufferState, queue: seq<ServerFrame>, c: int, clientFrame: Option<ClientFrame>): Result<Option<ServerFrame>, HandleError>
    requires Inv(st)
  {
    match CastAndFeed(st, clientFrame)
    case Err(e) => Err(e)
    case Ok(o) => if o.result.Err? then Err(BufferRefused(o.result.error)) else Ok(Respond(queue, c))
  }

  class ClientSession {
    var clientId: Int32
    const maxIncomingSequenceNr: int
    const maxOutgoingSequenceNr: int
    const frameBuffer: FrameBuffer
    var currentLocalSequenceNr: int
    var queue: seq<ServerFrame>
    var received: seq<SequencedFrame>
    /** The counter's random start and the ids stamped so far. */
    ghost const seed: int
    ghost var stamped: seq<int>

    /** The buffer is well formed and the stamps so far are consecutive on
        the ring `0..maxOutgoingSequenceNr`. */
    ghost predicate Valid()
      reads this, frameBuffer, frameBuffer.buffer
    {
      && frameBuffer.Valid()
      && frameBuffer.maxSequenceValue == maxIncomingSequenceNr
      && StampedInTurn(seed, stamped, currentLocalSequenceNr, maxOutgoingSequenceNr)
    }

    /** The counter starts at `new Random(..).Next(1, maxOutgoingSequenceNr)`,
        any value the environment picks in that range. */
    constructor (clientId: Int32, maxIncomingSequenceNr: int, maxOutgoingSequenceNr: int)
      requires 0 <= maxIncomingSequenceNr && 1 <= maxOutgoingSequenceNr
      ensures Valid() && fresh(frameBuffer) && fresh(frameBuffer.buffer)
      ensures this.clientId == clientId
      ensures this.maxIncomingSequenceNr == maxIncomingSequenceNr && this.maxOutgoingSequenceNr == maxOutgoingSequenceNr
      ensures frameBuffer.State() == Initial(maxIncomingSequenceNr)
      ensures IsSeed(currentLocalSequenceNr, maxOutgoingSequenceNr) && currentLocalSequenceNr == seed
      ensures queue == [] && received == [] && stamped == []
    {
      this.clientId := clientId;
      this.maxIncomingSequenceNr := maxIncomingSequenceNr;
      this.maxOutgoingSequenceNr := maxOutgoingSequenceNr;
      assert IsSeed(1, maxOutgoingSequenceNr);
      var start :| IsSeed(start, maxOutgoingSequenceNr);
      this.currentLocalSequenceNr := start;
      this.seed := start;
      this.stamped := [];
      this.queue := [];
      this.received := [];
      this.frameBuffer := new FrameBuffer(maxIncomingSequenceNr);
      new;
      SeedStartsTurn(start, maxOutgoingSequenceNr);
    }

    /** One FrameReceived per frame of a delivered block, in block order. */
    method FrameBufferOnFrameBlockReceived(block: seq<SequencedFrame>)
      modifies this`received
      ensures received == old(received) + block
    {
      for i := 0 to |block|
        invariant received == old(received) + block[..i]
      {
        assert block[..i + 1] == block[..i] + [block[i]];
        received := received + [block[i]];
      }
      assert block[..|block|] == block;
    }

    /** Queues a frame for the client, in any situation. */
    method Send(serverFrame: ServerFrame)
      modifies this`queue
      ensures queue == old(queue) + [serverFrame]
    {
      queue := queue + [serverFrame];
    }

    /** The accept response: the client id as four bytes, stamped with the
        next sequence number. */
    method CreateAcceptResponse() returns (response: ServerFrame)
      requires Valid()
      modifies this`currentLocalSequenceNr, this`stamped
      ensures Valid()
      ensures response == ServerData(old(currentLocalSequenceNr), Some(Int32ToBytes(clientId)))
      ensures BytesToInt32(response.payload.value) == clientId
      ensures currentLocalSequenceNr == AdvanceOrWrap(old(currentLocalSequenceNr), maxOutgoingSequenceNr)
      ensures stamped == old(stamped) + [old(currentLocalSequenceNr)]
    {
      response := SetSequenceNr(ServerData(0, Some(Int32ToBytes(clientId))));
      Int32RoundTrip(clientId);
    }

    /** Gives `frame` the current counter and advances the counter to
        `c + 1`, or to 0 after the largest id. */
    method SetSequenceNr(frame: ServerFrame) returns (result: ServerFrame)
      requires Valid()
      modifies this`currentLocalSequenceNr, this`stamped
      ensures Valid()
      ensures result == ServerData(old(currentLocalSequenceNr), frame.payload)
      ensures currentLocalSequenceNr == AdvanceOrWrap(old(currentLocalSequenceNr), maxOutgoingSequenceNr)
      ensures stamped == old(stamped) + [old(currentLocalSequenceNr)]
    {
      StampKeepsTurn(seed, stamped, currentLocalSequenceNr, maxOutgoingSequenceNr);
      result := ServerData(currentLocalSequenceNr, frame.payload);
      stamped := stamped + [currentLocalSequenceNr];
      currentLocalSequenceNr := if currentLocalSequenceNr < maxOutgoingSequenceNr then currentLocalSequenceNr + 1 else 0;
    }

    /** What `HandleClientFrame(clientFrame)` did to this session, `r` being
        its result: the buffer took the frame as CastAndFeed says (or is
        untouched when the cast failed); on any failure the queue, the
        counter and the logs are as they were; on success the delivered
        block was raised, the queue lost its head and the counter moved on
        once for the frame that head became. */
    twostate predicate Handled(clientFrame: Option<ClientFrame>, new r: Result<Option<ServerFrame>, HandleError>)
      requires old(Valid())
      reads this, frameBuffer, frameBuffer.buffer
    {
      var c := CastAndFeed(old(frameBuffer.State()), clientFrame);
      && clientId == old(clientId)
      && r == Answer(old(frameBuffer.State()), old(queue), old(currentLocalSequenceNr), clientFrame)
      && frameBuffer.State() == (if c.Ok? then c.value.state else old(frameBuffer.State()))
      && (c.Err? || c.value.result.Err? ==>
            && queue == old(queue) && received == old(received)
            && currentLocalSequenceNr == old(currentLocalSequenceNr) && stamped == old(stamped))
      && (c.Ok? && c.value.result.Ok? ==>
            && received == old(received) + c.value.result.value
            && queue == Rest(old(queue))
            && (old(queue) == [] ==> currentLocalSequenceNr == old(currentLocalSequenceNr) && stamped == old(stamped))
            && (old(queue) != [] ==>
                  && currentLocalSequenceNr == AdvanceOrWrap(old(currentLocalSequenceNr), maxOutgoingSequenceNr)
                  && stamped == old(stamped) + [old(currentLocalSequenceNr)]))
    }

    /** A poll from the client: the frame is cast to a data frame and added
        to the buffer (a null frame is skipped), then the head of the queue
        is returned stamped, or nothing (null) when the queue is empty. */
    method HandleClientFrame(clientFrame: Option<ClientFrame>) returns (r: Result<Option<ServerFrame>, HandleError>)
      requires Valid()
      modifies this, frameBuffer, frameBuffer.buffer
      ensures Valid()
      ensures Handled(clientFrame, r)
    {
      if clientFrame.Some? {
        if clientFrame.value.ClientPoll? {
          return Err(InvalidCast);
        }
        var added := frameBuffer.Add(clientFrame.value);
        if added.Err? {
          return Err(BufferRefused(added.error));
        }
        FrameBufferOnFrameBlockReceived(added.value);
      }
      var response := TryDequeue();
      r := Ok(response);
    }

    /** The tail of `HandleClientFrame`: the queue's head, stamped, if any. */
    method TryDequeue() returns (response: Option<ServerFrame>)
      requires Valid()
      modifies this`queue, this`currentLocalSequenceNr, this`stamped
      ensures Valid()
      ensures response == Respond(old(queue), old(currentLocalSequenceNr))
      ensures queue == Rest(old(queue))
      ensures old(queue) == [] ==> currentLocalSequenceNr == old(currentLocalSequenceNr) && stamped == old(stamped)
      ensures old(queue) != [] ==>
        && currentLocalSequenceNr == AdvanceOrWrap(old(currentLocalSequenceNr), maxOutgoingSequenceNr)
        && stamped == old(stamped) + [old(currentLocalSequenceNr)]
    {
      if |queue| > 0 {
        var toSend := queue[0];
        queue := queue[1..];
        var stampedFrame := SetSequenceNr(toSend);
        return Some(stampedFrame);
      }
      return None;
    }
  }
}
