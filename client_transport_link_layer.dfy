/** Common/ClientTransportLinkLayer.cs: the client's transport without
    control frames. Data frames leave stamped with a counter that starts at
    a random seed and resets to 0 once it passes the largest id. Received
    bytes are decoded into server frames and fed to a reorder buffer, and
    every frame of a delivered block is raised as FrameReceived, in block
    order. Its ProcessFrame property is never called, so it is not part of
    the model. */
module ClientTransportLinks {
  import opened Wrappers
  import opened Frames
  import opened SequenceCounters
  import opened FrameBufferSpec
  import opened FrameBuffers
  import opened Transports

  class ClientTransportLinkLayer {
    const networkLayer: NetworkLinkLayer
    /** The data frame encoder and the server frame decoder. */
    const encodeDataFrame: ClientDataFrame -> Bytes
    const decodeServerFrame: Bytes -> ServerFrame
    const maxSequenceValue: int
    const incomingBuffer: FrameBuffer
    var localSequenceNr: int
    /** The frames raised as FrameReceived, in order. */
    var received: seq<SequencedFrame>
    /** The counter's random start and the ids stamped so far. */
    ghost const seed: int
    ghost var stamped: seq<int>

    /** The buffer is well formed and the stamps so far are consecutive on
        the ring `0..maxSequenceValue`. */
    ghost predicate Valid()
      reads this, incomingBuffer, incomingBuffer.buffer
    {
      && incomingBuffer.Valid()
      && incomingBuffer.maxSequenceValue == maxSequenceValue
      && StampedInTurn(seed, stamped, localSequenceNr, maxSequenceValue)
    }

    /** The counter starts at `new Random(..).Next(1, maxSequenceValue)`,
        any value the environment picks in that range. */
    constructor (networkLayer: NetworkLinkLayer, encodeDataFrame: ClientDataFrame -> Bytes,
                 decodeServerFrame: Bytes -> ServerFrame, maxSequenceValue: int)
      requires 1 <= maxSequenceValue
      ensures Valid() && fresh(incomingBuffer) && fresh(incomingBuffer.buffer)
      ensures this.networkLayer == networkLayer && this.maxSequenceValue == maxSequenceValue
      ensures this.encodeDataFrame == encodeDataFrame
      ensures this.decodeServerFrame == decodeServerFrame
      ensures incomingBuffer.State() == Initial(maxSequenceValue)
      ensures IsSeed(localSequenceNr, maxSequenceValue) && received == [] && stamped == []
    {
      this.networkLayer := networkLayer;
      this.encodeDataFrame := encodeDataFrame;
      this.decodeServerFrame := decodeServerFrame;
      this.maxSequenceValue := maxSequenceValue;
      this.incomingBuffer := new FrameBuffer(maxSequenceValue);
      assert IsSeed(1, maxSequenceValue);
      var start :| IsSeed(start, maxSequenceValue);
      this.localSequenceNr := start;
      this.seed := start;
      this.stamped := [];
      this.received := [];
      new;
      SeedStartsTurn(start, maxSequenceValue);
    }

    /** The network layer's DataReceived: the bytes are decoded and added
        to the buffer once; the buffer's exception reaches the caller. */
    method NetworkLayerOnDataReceived(data: Bytes) returns (r: Outcome<AddError>)
      requires Valid()
      modifies this`received, incomingBuffer, incomingBuffer.buffer
      ensures Valid()
      ensures Fed(old(incomingBuffer.State()), decodeServerFrame(data), incomingBuffer.State(),
                  old(received), received, r)
    {
      var decodedFrame := decodeServerFrame(data);
      var added := incomingBuffer.Add(decodedFrame);
      if added.Err? {
        return Fail(added.error);
      }
      IncomingBufferOnFrameBlockReceived(added.value);
      r := Pass;
    }

    /** One FrameReceived per frame of a delivered block, in block order. */
    method IncomingBufferOnFrameBlockReceived(block: seq<SequencedFrame>)
      modifies this`received
      ensures received == old(received) + block
    {
      for i := 0 to |block|
        invariant received == old(received) + block[..i]
      {
        assert block[..i + 1] == block[..i] + [block[i]];
        received := received + [block[i]];
      }
      assert block[..|block|] == block;
    }

    /** Sends a data frame: it gets the current counter as its SequenceId,
        the counter is incremented (0 once past the largest id), and the
        encoded frame goes to the network layer. */
    method Send(sendFrame: ClientDataFrame) returns (stampedFrame: ClientDataFrame)
      requires Valid()
      modifies this`localSequenceNr, this`stamped, networkLayer
      ensures Valid()
      ensures stampedFrame == WithSequenceId(sendFrame, old(localSequenceNr))
      ensures localSequenceNr == IncrementOrReset(old(localSequenceNr), maxSequenceValue)
      ensures stamped == old(stamped) + [old(localSequenceNr)]
      ensures networkLayer.sent == old(networkLayer.sent) + [encodeDataFrame(stampedFrame)]
    {
      StampKeepsTurn(seed, stamped, localSequenceNr, maxSequenceValue);
      stampedFrame := WithSequenceId(sendFrame, localSequenceNr);
      stamped := stamped + [localSequenceNr];
      localSequenceNr := localSequenceNr + 1;
      if localSequenceNr > maxSequenceValue {
        localSequenceNr := 0;
      }
      var bytesToSend := encodeDataFrame(stampedFrame);
      networkLayer.Send(bytesToSend);
    }
  }
}
