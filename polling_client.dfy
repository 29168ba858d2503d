/** Client/PollingClient.cs: the client's connection state machine over the
    Client/ transport. `Connect` moves Disconnected to Connecting and sends
    an empty data frame as the connection request; the first frame received
    while Connecting carries the client id the server assigned and moves the
    client to Connected. ConnectionStateChanged is raised only on an actual
    change; `stateChanges` records those notifications. */
module PollingClients {
  import opened Wrappers
  import opened Frames
  import opened SequenceCounters
  import opened StateLogs
  import opened FrameBufferSpec
  import opened FrameBuffers
  import opened Transports
  import opened ClientTransport

  datatype ConnectionState = Disconnected | Connecting | Connected | Timeout

  /** The exceptions of the clients' `Connect`. */
  datatype ConnectError =
    | LogicalLinkLayerNotSet
    | IllegalState(state: ConnectionState)

  /** The exceptions BitConverter.ToInt32(payload, 0) throws: a null
      payload, or fewer than four bytes. */
  datatype ReceiveError =
    | PayloadNull
    | PayloadTooShort(length: nat)

  /** The exception that ends the chain from received bytes to the client:
      the transport's buffer refused the decoded frame, or the client could
      not read a delivered frame's payload. */
  datatype ChainError =
    | BufferRefused(refusal: AddError)
    | FrameUnreadable(reason: ReceiveError)

  /** The transport's part of a chain outcome. */
  function BufferPart(r: Outcome<ChainError>): (t: Outcome<AddError>)
    ensures t.Fail? <==> r.Fail? && r.error.BufferRefused?
  {
    if r.Fail? && r.error.BufferRefused? then Fail(r.error.refusal) else Pass
  }

  /** The notifications this revision can raise: it never reaches Timeout
      and never leaves Connected. */
  predicate IsHandshakeStep(c: Change<ConnectionState>)
  {
    c == Change(Disconnected, Connecting) || c == Change(Connecting, Connected)
  }

  /** The handshake, step by step. */
  function Handshake(): (steps: seq<Change<ConnectionState>>)
    ensures |steps| == 2 && forall i :: 0 <= i < |steps| ==> IsHandshakeStep(steps[i])
  {
    [Change(Disconnected, Connecting), Change(Connecting, Connected)]
  }

  /** From Disconnected, the only notifications the client can raise are
      the handshake's, in order: a client is Connected only after having
      been Connecting, and each state is reported at most once. */
  lemma {:induction false} HandshakeOnly(log: seq<Change<ConnectionState>>, state: ConnectionState)
    requires Chain(log, Disconnected, state)
    requires forall i :: 0 <= i < |log| ==> IsHandshakeStep(log[i])
    ensures |log| <= 2 && log == Handshake()[..|log|]
    ensures state == [Disconnected, Connecting, Connected][|log|]
  {
    if |log| > 0 {
      assert log[0] == Change(Disconnected, Connecting);
      var tail := log[1..];
      assert Chain(tail, Connecting, state);
      if |tail| > 0 {
        assert tail[0] == log[1];
        assert tail[0] == Change(Connecting, Connected);
        var rest := tail[1..];
        assert Chain(rest, Connected, state);
        if |rest| > 0 {
          assert false;
        }
        assert log == Handshake();
      } else {
        assert log == Handshake()[..1];
      }
    }
  }

  /** `new PollingClient(clientNetworkLinkLayer, ...)`, which throws when
      the link layer is null. */
  method CreatePollingClient<C>(
    clientNetworkLinkLayer: NetworkLinkLayer?,
    encodeControlFrame: C -> Bytes,
    encodeDataFrame: ClientDataFrame -> Bytes,
    decodeServerFrame: Bytes -> ServerFrame,
    maxSequenceValue: int)
    returns (r: Result<PollingClient<C>, ConstructError>)
    requires 1 <= maxSequenceValue
    ensures clientNetworkLinkLayer == null ==> r == Err(LinkLayerNotSet)
    ensures clientNetworkLinkLayer != null ==>
      && r.Ok? && fresh(r.value) && r.value.Valid()
      && r.value.networkLinkLayer == clientNetworkLinkLayer
      && r.value.connectionState == Disconnected && r.value.stateChanges == []
  {
    if clientNetworkLinkLayer == null {
      return Err(LinkLayerNotSet);
    }
    var client := new PollingClient(clientNetworkLinkLayer, encodeControlFrame, encodeDataFrame,
      decodeServerFrame, maxSequenceValue);
    r := Ok(client);
  }

  /** `C` is the client control frame type, which only the encoder sees. */
  class PollingClient<C> {
    var connectionState: ConnectionState
    const networkLinkLayer: NetworkLinkLayer
    const transportLayer: ClientTransportLayer<C>
    var clientId: Int32
    /** The ConnectionStateChanged notifications raised so far. */
    var stateChanges: seq<Change<ConnectionState>>

    /** The transport sits on the client's link layer, and the
        notifications lead from Disconnected to the current state through
        handshake steps only. */
    ghost predicate Valid()
      reads this, transportLayer, transportLayer.incomingBuffer, transportLayer.incomingBuffer.buffer
    {
      && transportLayer.Valid()
      && transportLayer.networkLayer == networkLinkLayer
      && Chain(stateChanges, Disconnected, connectionState)
      && (forall i :: 0 <= i < |stateChanges| ==> IsHandshakeStep(stateChanges[i]))
    }

    /** Builds the transport over the link layer; the state is the enum's
        default, Disconnected. */
    constructor (clientNetworkLinkLayer: NetworkLinkLayer, encodeControlFrame: C -> Bytes,
                 encodeDataFrame: ClientDataFrame -> Bytes, decodeServerFrame: Bytes -> ServerFrame,
                 maxSequenceValue: int)
      requires 1 <= maxSequenceValue
      ensures Valid() && fresh(transportLayer)
      ensures networkLinkLayer == clientNetworkLinkLayer
      ensures transportLayer.encodeDataFrame == encodeDataFrame
      ensures connectionState == Disconnected && stateChanges == [] && clientId == 0
    {
      connectionState := Disconnected;
      networkLinkLayer := clientNetworkLinkLayer;
      transportLayer := new ClientTransportLayer(clientNetworkLinkLayer, encodeControlFrame, encodeDataFrame,
        decodeServerFrame, maxSequenceValue);
      clientId := 0;
      stateChanges := [];
    }

    /** The transport's FrameReceived, for each frame its buffer delivers:
        while Connecting, the payload's first four bytes are the client id
        and the client is Connected; in any other state the frame is
        ignored. */
    method TransportLayerOnFrameReceived(frame: SequencedFrame) returns (r: Outcome<ReceiveError>)
      requires Valid()
      modifies this`clientId, this`connectionState, this`stateChanges
      ensures Valid()
      ensures old(connectionState) != Connecting ==> r == Pass && unchanged(this)
      ensures old(connectionState) == Connecting && frame.payload.None? ==>
        r == Fail(PayloadNull) && unchanged(this)
      ensures old(connectionState) == Connecting && frame.payload.Some? && |frame.payload.value| < 4 ==>
        r == Fail(PayloadTooShort(|frame.payload.value|)) && unchanged(this)
      ensures old(connectionState) == Connecting && frame.payload.Some? && |frame.payload.value| >= 4 ==>
        && r == Pass
        && clientId == BytesToInt32(frame.payload.value)
        && connectionState == Connected
        && stateChanges == old(stateChanges) + [Change(Connecting, Connected)]
    {
      if connectionState == Connecting {
        var data := frame.payload;
        if data.None? {
          return Fail(PayloadNull);
        }
        if |data.value| < 4 {
          return Fail(PayloadTooShort(|data.value|));
        }
        clientId := BytesToInt32(data.value);
        SetNewConnectionState(Connected);
      }
      r := Pass;
    }

    /** Bytes arriving at the link layer, followed through the handlers the
        constructors subscribe: the transport decodes them and adds the frame
        to its buffer, and every frame the buffer delivers is raised as
        FrameReceived and handled by this client, in block order. Only the
        first of them can matter: it completes the handshake while
        Connecting, and the client then ignores the rest. An exception from
        the buffer or from reading a payload ends the chain. */
    method NetworkLayerDataReceived(data: Bytes) returns (r: Outcome<ChainError>)
      requires Valid()
      modifies this`clientId, this`connectionState, this`stateChanges
      modifies transportLayer`received, transportLayer.incomingBuffer, transportLayer.incomingBuffer.buffer
      ensures Valid()
      ensures Fed(old(transportLayer.incomingBuffer.State()), transportLayer.decodeServerFrame(data),
                  transportLayer.incomingBuffer.State(), old(transportLayer.received), transportLayer.received,
                  BufferPart(r))
      ensures old(transportLayer.received) <= transportLayer.received
      ensures var block := transportLayer.received[|old(transportLayer.received)|..];
        && (old(connectionState) != Connecting || block == [] ==>
              && (r.Pass? || r.error.BufferRefused?)
              && clientId == old(clientId) && connectionState == old(connectionState)
              && stateChanges == old(stateChanges))
        && (old(connectionState) == Connecting && block != [] && block[0].payload.None? ==>
              && r == Fail(FrameUnreadable(PayloadNull))
              && clientId == old(clientId) && connectionState == Connecting && stateChanges == old(stateChanges))
        && (old(connectionState) == Connecting && block != [] && block[0].payload.Some?
            && |block[0].payload.value| < 4 ==>
              && r == Fail(FrameUnreadable(PayloadTooShort(|block[0].payload.value|)))
              && clientId == old(clientId) && connectionState == Connecting && stateChanges == old(stateChanges))
        && (old(connectionState) == Connecting && block != [] && block[0].payload.Some?
            && |block[0].payload.value| >= 4 ==>
              && r == Pass
              && clientId == BytesToInt32(block[0].payload.value)
              && connectionState == Connected
              && stateChanges == old(stateChanges) + [Change(Connecting, Connected)])
    {
      var before := transportLayer.received;
      var fed := transportLayer.NetworkLayerOnDataReceived(data);
      if fed.Fail? {
        return Fail(BufferRefused(fed.error));
      }
      label delivered:
      var block := transportLayer.received[|before|..];
      var i := 0;
      while i < |block|
        invariant 0 <= i <= |block|
        invariant Valid()
        invariant unchanged@delivered(transportLayer, transportLayer.incomingBuffer, transportLayer.incomingBuffer.buffer)
        invariant i == 0 || old(connectionState) != Connecting ==>
          clientId == old(clientId) && connectionState == old(connectionState) && stateChanges == old(stateChanges)
        invariant i > 0 && old(connectionState) == Connecting ==>
          && block[0].payload.Some? && |block[0].payload.value| >= 4
          && clientId == BytesToInt32(block[0].payload.value)
          && connectionState == Connected
          && stateChanges == old(stateChanges) + [Change(Connecting, Connected)]
      {
        var handled := TransportLayerOnFrameReceived(block[i]);
        if handled.Fail? {
          return Fail(FrameUnreadable(handled.error));
        }
        i := i + 1;
      }
      r := Pass;
    }

    /** Starts the handshake: only from Disconnected, by moving to
        Connecting and sending a new data frame (client id 0, no payload)
        through the transport, which stamps it. */
    method Connect() returns (r: Outcome<ConnectError>)
      requires Valid()
      modifies this`connectionState, this`stateChanges
      modifies transportLayer`localSequenceNr, transportLayer`stamped, networkLinkLayer
      ensures Valid()
      ensures old(connectionState) != Disconnected ==>
        && r == Fail(IllegalState(old(connectionState)))
        && unchanged(this) && unchanged(transportLayer) && unchanged(networkLinkLayer)
      ensures old(connectionState) == Disconnected ==>
        && r == Pass
        && connectionState == Connecting
        && stateChanges == old(stateChanges) + [Change(Disconnected, Connecting)]
        && networkLinkLayer.sent == old(networkLinkLayer.sent)
             + [transportLayer.encodeDataFrame(ClientData(0, old(transportLayer.localSequenceNr), None))]
        && transportLayer.localSequenceNr
             == IncrementOrReset(old(transportLayer.localSequenceNr), transportLayer.maxSequenceValue)
    {
      if connectionState != Disconnected {
        return Fail(IllegalState(connectionState));
      }
      SetNewConnectionState(Connecting);
      var _ := transportLayer.Send(ClientData(0, 0, None));
      r := Pass;
    }

    /** As written, a data frame is stamped with the client id and sent
        only while the client is NOT Connected; once Connected, `Send`
        does nothing. `sent` is the frame handed to the transport. */
    method Send(frame: ClientDataFrame) returns (sent: Option<ClientDataFrame>)
      requires Valid()
      modifies transportLayer`localSequenceNr, transportLayer`stamped, networkLinkLayer
      ensures Valid()
      ensures old(connectionState) == Connected ==>
        sent == None && unchanged(transportLayer) && unchanged(networkLinkLayer)
      ensures old(connectionState) != Connected ==>
        && sent == Some(ClientData(clientId, old(transportLayer.localSequenceNr), frame.payload))
        && networkLinkLayer.sent == old(networkLinkLayer.sent) + [transportLayer.encodeDataFrame(sent.value)]
        && transportLayer.localSequenceNr
             == IncrementOrReset(old(transportLayer.localSequenceNr), transportLayer.maxSequenceValue)
    {
      if connectionState != Connected {
        var stamped := transportLayer.Send(ClientData(clientId, frame.sequenceId, frame.payload));
        return Some(stamped);
      }
      return None;
    }

    /** Raises ConnectionStateChanged when, and only when, the state
        changes. */
    method SetNewConnectionState(state: ConnectionState)
      requires Valid()
      requires IsHandshakeStep(Change(connectionState, state))
      modifies this`connectionState, this`stateChanges
      ensures Valid()
      ensures connectionState == state
      ensures stateChanges == old(stateChanges) + ChangeLog(old(connectionState), state)
    {
      ChainExtends(stateChanges, Disconnected, connectionState, state);
      if connectionState != state {
        var oldState := connectionState;
        connectionState := state;
        stateChanges := stateChanges + [Change(oldState, state)];
      }
    }
  }
}
