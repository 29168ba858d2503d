/** Server/PollingClientSession.cs: one client's session on the server. It
    moves Created -> Handshaking -> Connected and, on a timer, to Timeout
    and Closed; it keeps a FIFO of frames waiting to be sent to the client,
    stamps each with a wrapping sequence counter when it leaves, and feeds
    the client's data frames into a reorder buffer.

    The three System.Threading.Timer callbacks are methods the environment
    may call at any time; arming, re-arming and disposing the timers have no
    counterpart here. The events the session raises are recorded, in order,
    in `events`. */
module ServerSessions {
  import opened Wrappers
  import opened Frames
  import opened SequenceCounters
  import opened StateLogs
  import opened FrameBufferSpec
  import opened FrameBuffers

  datatype SessionState = Created | Handshaking | Connected | Timeout | Closed

  datatype CloseReason = Unknown | HandshakeTimeout | ReceiveTimeout

  /** StateChanged, SessionClosed and FrameReceived, with their arguments. */
  datatype SessionEvent =
    | StateChanged(change: Change<SessionState>)
    | SessionClosed(clientId: Int32, reason: CloseReason)
    | FrameReceived(frame: SequencedFrame)

  /** The exceptions: `Send` outside Connected, and the frame buffer's
      refusal of a data frame. */
  datatype SessionError =
    | IllegalState(state: SessionState)
    | Refused(error: AddError)

  /** The StateChanged notifications among `events`, in order. */
  function StateChanges(events: seq<SessionEvent>): (changes: seq<Change<SessionState>>)
    ensures |changes| <= |events|
  {
    if |events| == 0 then []
    else
      var e := events[|events| - 1];
      StateChanges(events[..|events| - 1]) + (if e.StateChanged? then [e.change] else [])
  }

  /** The StateChanged events raising `changes`. */
  function Announce(changes: seq<Change<SessionState>>): (events: seq<SessionEvent>)
    ensures |events| == |changes|
    ensures forall i :: 0 <= i < |changes| ==> events[i] == StateChanged(changes[i])
  {
    seq(|changes|, i requires 0 <= i < |changes| => StateChanged(changes[i]))
  }

  /** One FrameReceived event per frame of `block`, in block order. */
  function Deliver(block: seq<SequencedFrame>): (events: seq<SessionEvent>)
    ensures |events| == |block|
    ensures forall i :: 0 <= i < |block| ==> events[i] == FrameReceived(block[i])
  {
    seq(|block|, i requires 0 <= i < |block| => FrameReceived(block[i]))
  }

  lemma {:induction false} StateChangesAppend(a: seq<SessionEvent>, b: seq<SessionEvent>)
    ensures StateChanges(a + b) == StateChanges(a) + StateChanges(b)
    decreases |b|
  {
    if |b| == 0 {
      assert a + b == a;
    } else {
      var b' := b[..|b| - 1];
      StateChangesAppend(a, b');
      assert (a + b)[..|a + b| - 1] == a + b';
    }
  }

  /** Only StateChanged events add to the state-change history. */
  lemma {:induction false} StateChangesOf(changes: seq<Change<SessionState>>, block: seq<SequencedFrame>, closed: SessionEvent)
    requires closed.SessionClosed?
    ensures StateChanges(Announce(changes)) == changes
    ensures StateChanges(Deliver(block)) == []
    ensures StateChanges([closed]) == []
    decreases |changes| + |block|
  {
    assert [closed][..0] == [];
    if |changes| > 0 {
      var c' := changes[..|changes| - 1];
      StateChangesOf(c', [], closed);
      assert Announce(changes)[..|changes| - 1] == Announce(c');
    }
    if |block| > 0 {
      var b' := block[..|block| - 1];
      StateChangesOf([], b', closed);
      assert Deliver(block)[..|block| - 1] == Deliver(b');
    }
  }

  /** What the session's buffer does with a frame from the client: a data
      frame is added (`clientFrame is TClientDataFrameType`), anything else
      leaves the buffer as it is and delivers nothing. */
  ghost function Feed(st: BufferState, clientFrame: Option<ClientFrame>): AddOutcome
    requires Inv(st)
  {
    if clientFrame.Some? && clientFrame.value.ClientData? then AddFrame(st, clientFrame.value)
    else AddOutcome(st, Ok([]))
  }

  /** The answer to a poll: the head of the outgoing queue, stamped with
      the counter `c`, or nothing when the queue is empty. */
  function Respond(queue: seq<ServerFrame>, c: int): (response: Option<ServerFrame>)
    ensures response.None? <==> queue == []
    ensures response.Some? ==> response.value.sequenceId == c && response.value.payload == queue[0].payload
  {
    if queue == [] then None else Some(ServerData(c, queue[0].payload))
  }

  /** The queue after a poll: FIFO, the head leaves first. */
  function Rest(queue: seq<ServerFrame>): seq<ServerFrame>
  {
    if queue == [] then [] else queue[1..]
  }

  /** The state `HandleClientFrame` leaves the session in. */
  function AfterClientFrame(state: SessionState): SessionState
  {
    if state == Handshaking then Connected else state
  }

  class PollingClientSession {
    const clientId: Int32
    const maxIncomingSequenceNr: int
    const maxOutgoingSequenceNr: int
    const frameBuffer: FrameBuffer
    var currentLocalSequenceNr: int
    var sessionState: SessionState
    var queue: seq<ServerFrame>
    var events: seq<SessionEvent>
    /** The counter's random start and the ids stamped so far. */
    ghost const seed: int
    ghost var stamped: seq<int>

    /** The buffer is well formed, the stamps so far are consecutive on the
        ring `0..maxOutgoingSequenceNr`, and the StateChanged events lead
        from Created to the current state. */
    ghost predicate Valid()
      reads this, frameBuffer, frameBuffer.buffer
    {
      && frameBuffer.Valid()
      && frameBuffer.maxSequenceValue == maxIncomingSequenceNr
      && StampedInTurn(seed, stamped, currentLocalSequenceNr, maxOutgoingSequenceNr)
      && Chain(StateChanges(events), Created, sessionState)
    }

    /** The counter starts at `new Random(..).Next(1, maxOutgoingSequenceNr)`,
        any value the environment picks in that range. */
    constructor (clientId: Int32, maxIncomingSequenceNr: int, maxOutgoingSequenceNr: int)
      requires 0 <= maxIncomingSequenceNr && 1 <= maxOutgoingSequenceNr
      ensures Valid() && fresh(frameBuffer) && fresh(frameBuffer.buffer)
      ensures this.clientId == clientId
      ensures this.maxIncomingSequenceNr == maxIncomingSequenceNr && this.maxOutgoingSequenceNr == maxOutgoingSequenceNr
      ensures frameBuffer.State() == Initial(maxIncomingSequenceNr)
      ensures IsSeed(currentLocalSequenceNr, maxOutgoingSequenceNr)
      ensures sessionState == Created && queue == [] && events == [] && stamped == []
    {
      this.clientId := clientId;
      this.maxIncomingSequenceNr := maxIncomingSequenceNr;
      this.maxOutgoingSequenceNr := maxOutgoingSequenceNr;
      assert IsSeed(1, maxOutgoingSequenceNr);
      var start :| IsSeed(start, maxOutgoingSequenceNr);
      this.currentLocalSequenceNr := start;
      this.seed := start;
      this.stamped := [];
      this.sessionState := Created;
      this.queue := [];
      this.events := [];
      this.frameBuffer := new FrameBuffer(maxIncomingSequenceNr);
      new;
      SeedStartsTurn(start, maxOutgoingSequenceNr);
    }

    /** The keep-alive timer: when nothing is waiting, queue one empty frame,
        stamped now. */
    method KeepAlivePackSenderTimerCallback()
      requires Valid()
      modifies this`queue, this`currentLocalSequenceNr, this`stamped
      ensures Valid()
      ensures old(queue) == [] ==>
        && queue == [ServerData(old(currentLocalSequenceNr), None)]
        && currentLocalSequenceNr == AdvanceOrWrap(old(currentLocalSequenceNr), maxOutgoingSequenceNr)
        && stamped == old(stamped) + [old(currentLocalSequenceNr)]
      ensures old(queue) != [] ==>
        queue == old(queue) && currentLocalSequenceNr == old(currentLocalSequenceNr) && stamped == old(stamped)
    {
      if |queue| == 0 {
        var frame := SetSequenceNr(ServerData(0, None));
        queue := queue + [frame];
      }
    }

    /** The handshake timer: Timeout, then SessionClosed, then Closed. */
    method HandshakeTimeoutCallback()
      requires Valid()
      modifies this`sessionState, this`events
      ensures Valid()
      ensures sessionState == Closed
      ensures events == old(events) + Announce(ChangeLog(old(sessionState), Timeout))
        + [SessionClosed(clientId, HandshakeTimeout), StateChanged(Change(Timeout, Closed))]
    {
      SetNewSessionState(Timeout);
      CloseSession(HandshakeTimeout);
    }

    /** The receive timer: Timeout, then SessionClosed, then Closed. */
    method DataReceiveTimeoutCallback()
      requires Valid()
      modifies this`sessionState, this`events
      ensures Valid()
      ensures sessionState == Closed
      ensures events == old(events) + Announce(ChangeLog(old(sessionState), Timeout))
        + [SessionClosed(clientId, ReceiveTimeout), StateChanged(Change(Timeout, Closed))]
    {
      SetNewSessionState(Timeout);
      CloseSession(ReceiveTimeout);
    }

    method CloseSession(reason: CloseReason)
      requires Valid()
      modifies this`sessionState, this`events
      ensures Valid()
      ensures sessionState == Closed
      ensures events == old(events) + [SessionClosed(clientId, reason)] + Announce(ChangeLog(old(sessionState), Closed))
    {
      var closed := SessionClosed(clientId, reason);
      StateChangesOf([], [], closed);
      StateChangesAppend(events, [closed]);
      assert StateChanges(events + [closed]) == StateChanges(events);
      events := events + [closed];
      SetNewSessionState(Closed);
    }

    /** One FrameReceived per frame of a delivered block, in block order. */
    method FrameBufferOnFrameBlockReceived(block: seq<SequencedFrame>)
      requires Valid()
      modifies this`events
      ensures Valid()
      ensures events == old(events) + Deliver(block)
    {
      for i := 0 to |block|
        invariant events == old(events) + Deliver(block[..i])
      {
        assert Deliver(block[..i + 1]) == Deliver(block[..i]) + [FrameReceived(block[i])];
        events := events + [FrameReceived(block[i])];
      }
      assert block[..|block|] == block;
      StateChangesOf([], block, SessionClosed(clientId, Unknown));
      StateChangesAppend(old(events), Deliver(block));
      assert StateChanges(old(events)) + [] == StateChanges(old(events));
      assert StateChanges(events) == StateChanges(old(events));
      assert sessionState == old(sessionState);
    }

    /** Queues a frame for the client; only a Connected session accepts. */
    method Send(serverFrame: ServerFrame) returns (r: Outcome<SessionError>)
      requires Valid()
      modifies this`queue
      ensures Valid()
      ensures sessionState != Connected ==> r == Fail(IllegalState(sessionState)) && queue == old(queue)
      ensures sessionState == Connected ==> r == Pass && queue == old(queue) + [serverFrame]
    {
      if sessionState != Connected {
        return Fail(IllegalState(sessionState));
      }
      queue := queue + [serverFrame];
      r := Pass;
    }

    /** The accept response: the client id as four bytes, stamped with the
        next sequence number. */
    method HandleConnectionRequest() returns (response: ServerFrame)
      requires Valid()
      modifies this`currentLocalSequenceNr, this`stamped
      ensures Valid()
      ensures response == ServerData(old(currentLocalSequenceNr), Some(Int32ToBytes(clientId)))
      ensures BytesToInt32(response.payload.value) == clientId
      ensures currentLocalSequenceNr == AdvanceOrWrap(old(currentLocalSequenceNr), maxOutgoingSequenceNr)
      ensures stamped == old(stamped) + [old(currentLocalSequenceNr)]
    {
      response := SetSequenceNr(ServerData(0, Some(Int32ToBytes(clientId))));
      Int32RoundTrip(clientId);
    }

    method Start()
      requires Valid()
      modifies this`sessionState, this`events
      ensures Valid()
      ensures sessionState == Handshaking
      ensures events == old(events) + Announce(ChangeLog(old(sessionState), Handshaking))
    {
      SetNewSessionState(Handshaking);
    }

    /** Changes the state, raising StateChanged only on an actual change. */
    method SetNewSessionState(state: SessionState)
      requires Valid()
      modifies this`sessionState, this`events
      ensures Valid()
      ensures sessionState == state
      ensures events == old(events) + Announce(ChangeLog(old(sessionState), state))
    {
      ghost var log := ChangeLog(sessionState, state);
      StateChangesOf(log, [], SessionClosed(clientId, Unknown));
      StateChangesAppend(events, Announce(log));
      ChainExtends(StateChanges(events), Created, sessionState, state);
      if sessionState != state {
        var oldState := sessionState;
        sessionState := state;
        events := events + [StateChanged(Change(oldState, sessionState))];
      }
    }

    /** Gives `frame` the current counter and advances the counter to
        `c + 1`, or to 0 after the largest id. */
    method SetSequenceNr(frame: ServerFrame) returns (result: ServerFrame)
      requires Valid()
      modifies this`currentLocalSequenceNr, this`stamped
      ensures Valid()
      ensures result == ServerData(old(currentLocalSequenceNr), frame.payload)
      ensures currentLocalSequenceNr == AdvanceOrWrap(old(currentLocalSequenceNr), maxOutgoingSequenceNr)
      ensures stamped == old(stamped) + [old(currentLocalSequenceNr)]
    {
      StampKeepsTurn(seed, stamped, currentLocalSequenceNr, maxOutgoingSequenceNr);
      result := ServerData(currentLocalSequenceNr, frame.payload);
      stamped := stamped + [currentLocalSequenceNr];
      currentLocalSequenceNr := if currentLocalSequenceNr < maxOutgoingSequenceNr then currentLocalSequenceNr + 1 else 0;
    }

    /** A poll from the client: completes the handshake, feeds a data frame
        to the buffer, and answers with the head of the queue, stamped, or
        with nothing (null) when the queue is empty. */
    method HandleClientFrame(clientFrame: Option<ClientFrame>) returns (r: Result<Option<ServerFrame>, SessionError>)
      requires Valid()
      modifies this, frameBuffer, frameBuffer.buffer
      ensures Valid()
      ensures sessionState == AfterClientFrame(old(sessionState))
      ensures var o := Feed(old(frameBuffer.State()), clientFrame);
        && frameBuffer.State() == o.state
        && (o.result.Err? ==>
              && r == Err(Refused(o.result.error))
              && events == old(events) + Announce(ChangeLog(old(sessionState), sessionState))
              && queue == old(queue) && currentLocalSequenceNr == old(currentLocalSequenceNr)
              && stamped == old(stamped))
        && (o.result.Ok? ==>
              && events == old(events) + Announce(ChangeLog(old(sessionState), sessionState)) + Deliver(o.result.value)
              && r == Ok(Respond(old(queue), old(currentLocalSequenceNr)))
              && queue == Rest(old(queue))
              && currentLocalSequenceNr == (if old(queue) == [] then old(currentLocalSequenceNr)
                                            else AdvanceOrWrap(old(currentLocalSequenceNr), maxOutgoingSequenceNr))
              && stamped == (if old(queue) == [] then old(stamped) else old(stamped) + [old(currentLocalSequenceNr)]))
    {
      if sessionState == Handshaking {
        SetNewSessionState(Connected);
      } else {
        assert Announce(ChangeLog(sessionState, sessionState)) == [];
        assert events + [] == events;
      }
      ghost var announced := events;
      assert announced == old(events) + Announce(ChangeLog(old(sessionState), sessionState));
      var fed := FeedFrame(clientFrame);
      if fed.Err? {
        return Err(Refused(fed.error));
      }
      var response := TryDequeue();
      r := Ok(response);
    }

    /** The middle of `HandleClientFrame`: a data frame goes to the buffer,
        and every frame the buffer delivers is raised as FrameReceived. */
    method FeedFrame(clientFrame: Option<ClientFrame>) returns (r: Result<seq<SequencedFrame>, AddError>)
      requires Valid()
      modifies this`events, frameBuffer, frameBuffer.buffer
      ensures Valid()
      ensures var o := Feed(old(frameBuffer.State()), clientFrame);
        && frameBuffer.State() == o.state
        && r == o.result
        && events == old(events) + (if o.result.Ok? then Deliver(o.result.value) else [])
    {
      if clientFrame.Some? && clientFrame.value.ClientData? {
        r := frameBuffer.Add(clientFrame.value);
        if r.Ok? {
          FrameBufferOnFrameBlockReceived(r.value);
        }
      } else {
        r := Ok([]);
        assert Deliver([]) == [];
      }
    }

    /** The tail of `HandleClientFrame`: the queue's head, stamped, if any. */
    method TryDequeue() returns (response: Option<ServerFrame>)
      requires Valid()
      modifies this`queue, this`currentLocalSequenceNr, this`stamped
      ensures Valid()
      ensures response == Respond(old(queue), old(currentLocalSequenceNr))
      ensures queue == Rest(old(queue))
      ensures old(queue) == [] ==> currentLocalSequenceNr == old(currentLocalSequenceNr) && stamped == old(stamped)
      ensures old(queue) != [] ==>
        && currentLocalSequenceNr == AdvanceOrWrap(old(currentLocalSequenceNr), maxOutgoingSequenceNr)
        && stamped == old(stamped) + [old(currentLocalSequenceNr)]
    {
      if |queue| > 0 {
        var toSend := queue[0];
        queue := queue[1..];
        var stampedFrame := SetSequenceNr(toSend);
        return Some(stampedFrame);
      }
      return None;
    }
  }
}
