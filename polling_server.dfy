/** Server/PollingServer.cs: the server end of the polling protocol. Every
    poll arrives through the network link layer's PollHandler. A frame with
    client id 0 asks for a new session, which is opened only once `Accept`
    has been called. Any other frame is handed to a session from the
    session bag (ConcurrentBag.TryPeek, whichever session that yields, not
    the one with the frame's client id). The answer is encoded back to bytes.

    Threads, locks and the blocking wait inside `Accept` have no counterpart
    here: `Accept` returns nothing where the C# method would keep waiting. */
module Servers {
  import opened Wrappers
  import opened Frames
  import opened SequenceCounters
  import opened FrameBufferSpec
  import opened FrameBuffers
  import opened ClientSessions
  import opened Transports

  /** IServerNetworkLinkLayer, reduced to the PollHandler it calls. */
  class ServerNetworkLinkLayer {
    var pollHandler: PollingServer?

    constructor ()
      ensures pollHandler == null
    {
      pollHandler := null;
    }
  }

  /** The exception a session throws while handling a poll. */
  datatype PollError = SessionFailed(error: HandleError)

  /** The ids `new Random().Next(12, 849849)` can return. */
  predicate IsClientId(id: int)
  {
    12 <= id <= 849848
  }

  /** `new PollingServer(networkLinkLayer, ...)`, which throws when the link
      layer is null. */
  method CreatePollingServer(
    networkLinkLayer: ServerNetworkLinkLayer?,
    decodeClientFrame: Bytes -> ClientFrame,
    encodeServerFrame: ServerFrame -> Bytes,
    maxIncomingSequenceValue: int,
    maxOutgoingSequenceValue: int)
    returns (r: Result<PollingServer, ConstructError>)
    requires 0 <= maxIncomingSequenceValue && 1 <= maxOutgoingSequenceValue
    modifies networkLinkLayer
    ensures networkLinkLayer == null ==> r == Err(LinkLayerNotSet)
    ensures networkLinkLayer != null ==>
      && r.Ok? && fresh(r.value) && r.value.Valid()
      && networkLinkLayer.pollHandler == r.value
      && r.value.networkLinkLayer == networkLinkLayer
      && !r.value.handleConnectionRequests
      && r.value.clientSessions == {} && r.value.connectionRequests == []
  {
    if networkLinkLayer == null {
      return Err(LinkLayerNotSet);
    }
    var server := new PollingServer(networkLinkLayer, decodeClientFrame, encodeServerFrame,
      maxIncomingSequenceValue, maxOutgoingSequenceValue);
    r := Ok(server);
  }

  class PollingServer {
    const networkLinkLayer: ServerNetworkLinkLayer
    /** The client frame encoder's Decode and the server frame encoder's
        Encode, supplied from outside. */
    const decodeClientFrame: Bytes -> ClientFrame
    const encodeServerFrame: ServerFrame -> Bytes
    const maxIncomingSequenceValue: int
    const maxOutgoingSequenceValue: int
    var handleConnectionRequests: bool
    /** The session bag: unordered, sessions are never removed. */
    var clientSessions: set<ClientSession>
    /** Sessions opened and not yet handed out by `Accept`, oldest first. */
    var connectionRequests: seq<ClientSession>

    /** The objects of every session: the session, its buffer and the
        buffer's slot array. */
    ghost function SessionParts(): set<object>
      reads this
    {
      (set s | s in clientSessions :: s as object)
      + (set s | s in clientSessions :: s.frameBuffer as object)
      + (set s | s in clientSessions :: s.frameBuffer.buffer as object)
    }

    /** Every session is valid, built with the server's sequence bounds and
        owns its buffer; every pending session is in the bag. */
    ghost predicate Valid()
      reads this, SessionParts()
    {
      && 0 <= maxIncomingSequenceValue && 1 <= maxOutgoingSequenceValue
      && (forall s :: s in clientSessions ==>
            && s.Valid()
            && s.maxIncomingSequenceNr == maxIncomingSequenceValue
            && s.maxOutgoingSequenceNr == maxOutgoingSequenceValue)
      && (forall s, t :: s in clientSessions && t in clientSessions && s != t ==>
            s.frameBuffer != t.frameBuffer && s.frameBuffer.buffer != t.frameBuffer.buffer)
      && (forall s :: s in connectionRequests ==> s in clientSessions)
    }

    /** Installs `NetworkLayerPollHandler` as the link layer's PollHandler. */
    constructor (
      networkLinkLayer: ServerNetworkLinkLayer,
      decodeClientFrame: Bytes -> ClientFrame,
      encodeServerFrame: ServerFrame -> Bytes,
      maxIncomingSequenceValue: int,
      maxOutgoingSequenceValue: int)
      requires 0 <= maxIncomingSequenceValue && 1 <= maxOutgoingSequenceValue
      modifies networkLinkLayer
      ensures Valid()
      ensures networkLinkLayer.pollHandler == this && this.networkLinkLayer == networkLinkLayer
      ensures this.decodeClientFrame == decodeClientFrame && this.encodeServerFrame == encodeServerFrame
      ensures this.maxIncomingSequenceValue == maxIncomingSequenceValue
      ensures this.maxOutgoingSequenceValue == maxOutgoingSequenceValue
      ensures !handleConnectionRequests && clientSessions == {} && connectionRequests == []
    {
      this.networkLinkLayer := networkLinkLayer;
      this.decodeClientFrame := decodeClientFrame;
      this.encodeServerFrame := encodeServerFrame;
      this.maxIncomingSequenceValue := maxIncomingSequenceValue;
      this.maxOutgoingSequenceValue := maxOutgoingSequenceValue;
      this.handleConnectionRequests := false;
      this.clientSessions := {};
      this.connectionRequests := [];
      new;
      networkLinkLayer.pollHandler := this;
    }

    /** A session just opened for a new client and answered once: built
        with the server's bounds, an empty queue and an initial buffer,
        nothing received, and its counter moved on from the seed by the
        accept response. */
    ghost predicate Opened(session: ClientSession)
      requires 0 <= maxIncomingSequenceValue
      reads session, session.frameBuffer, session.frameBuffer.buffer
    {
      && session.maxIncomingSequenceNr == maxIncomingSequenceValue
      && session.maxOutgoingSequenceNr == maxOutgoingSequenceValue
      && session.queue == [] && session.received == []
      && session.frameBuffer.State() == Initial(maxIncomingSequenceValue)
      && session.stamped == [session.seed]
      && session.currentLocalSequenceNr == AdvanceOrWrap(session.seed, maxOutgoingSequenceValue)
    }

    /** A response frame as bytes; no frame is a null answer. */
    function Encoded(response: Option<ServerFrame>): (bytes: Option<Bytes>)
      ensures bytes.Some? <==> response.Some?
    {
      if response.None? then None else Some(encodeServerFrame(response.value))
    }

    /** The PollHandler. `handler` names the session TryPeek yielded, or is
        null when no session handled the frame. */
    method NetworkLayerPollHandler(arg: Bytes) returns (r: Result<Option<Bytes>, PollError>, ghost handler: ClientSession?)
      requires Valid()
      modifies this, SessionParts()
      ensures Valid()
      ensures handleConnectionRequests == old(handleConnectionRequests)
      ensures var clientFrame := decodeClientFrame(arg);
        && (clientFrame.clientId == 0 && !old(handleConnectionRequests) ==>
              && r == Ok(None) && handler == null
              && clientSessions == old(clientSessions) && connectionRequests == old(connectionRequests))
        && (clientFrame.clientId == 0 && old(handleConnectionRequests) ==>
              && handler == null
              && |connectionRequests| == |old(connectionRequests)| + 1
              && var session := connectionRequests[|connectionRequests| - 1];
              && connectionRequests == old(connectionRequests) + [session]
              && fresh(session) && clientSessions == old(clientSessions) + {session}
              && IsClientId(session.clientId) && Opened(session)
              && r == Ok(Some(encodeServerFrame(ServerData(session.seed, Some(Int32ToBytes(session.clientId)))))))
        && (clientFrame.clientId != 0 && old(clientSessions) == {} ==>
              r == Ok(None) && handler == null && clientSessions == {} && connectionRequests == old(connectionRequests))
        && (clientFrame.clientId != 0 && old(clientSessions) != {} ==>
              && handler != null && handler in old(clientSessions)
              && clientSessions == old(clientSessions) && connectionRequests == old(connectionRequests)
              && old(handler.Valid())
              && var answer := Answer(old(handler.frameBuffer.State()), old(handler.queue),
                                      old(handler.currentLocalSequenceNr), Some(clientFrame));
              && handler.Handled(Some(clientFrame), answer)
              && r == (if answer.Err? then Err(SessionFailed(answer.error)) else Ok(Encoded(answer.value))))
      ensures forall t :: t in old(clientSessions) && t != handler ==> unchanged(t, t.frameBuffer, t.frameBuffer.buffer)
    {
      var clientFrame := decodeClientFrame(arg);
      handler := null;
      var response: Option<ServerFrame> := None;
      if clientFrame.clientId == 0 {
        if handleConnectionRequests {
          var accept := CreateNewClientSession();
          response := Some(accept);
        }
      } else if clientSessions != {} {
        var clientSession :| clientSession in clientSessions;
        handler := clientSession;
        var answer := RouteToSession(clientSession, clientFrame);
        if answer.Err? {
          return Err(SessionFailed(answer.error)), handler;
        }
        response := answer.value;
      }
      r := Ok(Encoded(response));
    }

    /** The TryPeek branch: the chosen session handles the frame, and no
        other session changes. */
    method RouteToSession(clientSession: ClientSession, clientFrame: ClientFrame) returns (answer: Result<Option<ServerFrame>, HandleError>)
      requires Valid() && clientSession in clientSessions
      modifies clientSession, clientSession.frameBuffer, clientSession.frameBuffer.buffer
      ensures Valid()
      ensures clientSession.Handled(Some(clientFrame), answer)
      ensures forall t :: t in clientSessions && t != clientSession ==> unchanged(t, t.frameBuffer, t.frameBuffer.buffer)
    {
      answer := clientSession.HandleClientFrame(Some(clientFrame));
      forall t | t in clientSessions && t != clientSession
        ensures t.frameBuffer != clientSession.frameBuffer && t.frameBuffer.buffer != clientSession.frameBuffer.buffer
      {
      }
    }

    /** Opens a session for a new client: it joins the bag and the pending
        queue, and its accept response is the answer to the poll. */
    method CreateNewClientSession() returns (acceptResponse: ServerFrame)
      requires Valid()
      modifies this`clientSessions, this`connectionRequests
      ensures Valid()
      ensures |connectionRequests| == |old(connectionRequests)| + 1
      ensures var session := connectionRequests[|connectionRequests| - 1];
        && connectionRequests == old(connectionRequests) + [session]
        && fresh(session) && fresh(session.frameBuffer) && fresh(session.frameBuffer.buffer)
        && clientSessions == old(clientSessions) + {session}
        && IsClientId(session.clientId) && Opened(session)
        && acceptResponse == ServerData(session.seed, Some(Int32ToBytes(session.clientId)))
    {
      var clientId := GetClientSession();
      var clientSession := new ClientSession(clientId, maxIncomingSequenceValue, maxOutgoingSequenceValue);
      AddSession(clientSession);
      acceptResponse := AcceptResponse(clientSession);
    }

    /** `clientSessions.Add` and `connectionRequests.Add` for a session
        that shares no object with the sessions already there. */
    method AddSession(clientSession: ClientSession)
      requires Valid() && clientSession.Valid()
      requires clientSession.maxIncomingSequenceNr == maxIncomingSequenceValue
      requires clientSession.maxOutgoingSequenceNr == maxOutgoingSequenceValue
      requires forall s :: s in clientSessions ==>
        s != clientSession && s.frameBuffer != clientSession.frameBuffer && s.frameBuffer.buffer != clientSession.frameBuffer.buffer
      modifies this`clientSessions, this`connectionRequests
      ensures Valid()
      ensures clientSessions == old(clientSessions) + {clientSession}
      ensures connectionRequests == old(connectionRequests) + [clientSession]
    {
      clientSessions := clientSessions + {clientSession};
      connectionRequests := connectionRequests + [clientSession];
    }

    /** `clientSession.CreateAcceptResponse()` for a session in the bag:
        only that session's counter moves. */
    method AcceptResponse(clientSession: ClientSession) returns (acceptResponse: ServerFrame)
      requires Valid() && clientSession in clientSessions
      modifies clientSession`currentLocalSequenceNr, clientSession`stamped
      ensures Valid()
      ensures acceptResponse == ServerData(old(clientSession.currentLocalSequenceNr), Some(Int32ToBytes(clientSession.clientId)))
      ensures clientSession.currentLocalSequenceNr
        == AdvanceOrWrap(old(clientSession.currentLocalSequenceNr), clientSession.maxOutgoingSequenceNr)
      ensures clientSession.stamped == old(clientSession.stamped) + [old(clientSession.currentLocalSequenceNr)]
    {
      acceptResponse := clientSession.CreateAcceptResponse();
    }

    /** Draws the id of a new client (the source's name for it). */
    method GetClientSession() returns (clientId: Int32)
      ensures IsClientId(clientId)
    {
      assert IsClientId(12);
      clientId :| IsClientId(clientId);
    }

    /** Does nothing in this revision. */
    method Start()
      ensures unchanged(this)
    {
    }

    /** Starts accepting connection requests and hands out the oldest
        pending session, if there is one. */
    method Accept() returns (clientSession: Option<ClientSession>)
      requires Valid()
      modifies this`handleConnectionRequests, this`connectionRequests
      ensures Valid()
      ensures handleConnectionRequests
      ensures old(connectionRequests) == [] ==> clientSession == None && connectionRequests == []
      ensures old(connectionRequests) != [] ==>
        && clientSession == Some(old(connectionRequests)[0])
        && connectionRequests == old(connectionRequests)[1..]
    {
      handleConnectionRequests := true;
      if |connectionRequests| == 0 {
        return None;
      }
      clientSession := Some(connectionRequests[0]);
      connectionRequests := connectionRequests[1..];
    }
  }
}
