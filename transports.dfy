/** What the four transport revisions (Client/ClientTransportLayer.cs,
    Common/ClientTransportLayer.cs, Common/ClientTransportLinkLayer.cs,
    Common/TransportLinkLayer.cs) have in common: the network link layer
    below them and the rule by which received bytes reach the frame
    buffer and come out as FrameReceived events. */
module Transports {
  import opened Wrappers
  import opened Frames
  import opened FrameBufferSpec

  /** The exception thrown by a constructor given no link layer. */
  datatype ConstructError = LinkLayerNotSet

  /** INetworkLinkLayer / IClientNetworkLinkLayer: the byte transport. Its
      `Send` is the only call the layers above make into it; `sent` records
      every buffer handed to it, in order. */
  class NetworkLinkLayer {
    var sent: seq<Bytes>

    constructor ()
      ensures sent == []
    {
      sent := [];
    }

    method Send(bytesToSend: Bytes)
      modifies this
      ensures sent == old(sent) + [bytesToSend]
    {
      sent := sent + [bytesToSend];
    }
  }

  /** One received buffer, decoded to `frame`, is added to the buffer once:
      the buffer moves from `before` to `after`, and the FrameReceived log
      grows from `log` to `log'` by the delivered block, or not at all when
      `Add` throws, whose exception `r` carries. */
  ghost predicate Fed(before: BufferState, frame: SequencedFrame, after: BufferState,
                      log: seq<SequencedFrame>, log': seq<SequencedFrame>, r: Outcome<AddError>)
    requires Inv(before)
  {
    var o := AddFrame(before, frame);
    && after == o.state
    && (o.result.Err? ==> r == Fail(o.result.error) && log' == log)
    && (o.result.Ok? ==> r == Pass && log' == log + o.result.value)
  }
}
