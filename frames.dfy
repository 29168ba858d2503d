/** Frames exchanged between a polling client and a polling server
    (Shared/DataFrame.cs), and the 32-bit integer layout that
    System.BitConverter gives a client id inside a payload. */
module Frames {
  import opened Wrappers

  type Byte = b: int | 0 <= b < 0x100
  type Bytes = seq<Byte>

  /** A C# `int`. */
  type Int32 = x: int | -0x8000_0000 <= x < 0x8000_0000

  /** The frame hierarchy as one tagged union. A `None` payload is a null
      byte array, which is what a frame created with `new` carries.
      - ServerData:    ServerDataFrame (SequencedDataFrame, server to client)
      - ClientData:    ClientDataFrame (SequencedDataFrame with a ClientId)
      - ClientPoll: ClientPollFrame (unsequenced, a client's poll) */
  datatype Frame =
    | ServerData(sequenceId: int, payload: Option<Bytes>)
    | ClientData(clientId: Int32, sequenceId: int, payload: Option<Bytes>)
    | ClientPoll(clientId: Int32, payload: Option<Bytes>)
  {
    predicate IsSequenced() { ServerData? || ClientData? }
    predicate IsClientFrame() { ClientData? || ClientPoll? }
  }

  /** Frames that carry a sequence id and may enter a frame buffer. */
  type SequencedFrame = f: Frame | f.IsSequenced() witness ServerData(0, None)
  /** Frames a client sends (the C# ClientFrame base class). */
  type ClientFrame = f: Frame | f.IsClientFrame() witness ClientPoll(0, None)
  type ClientDataFrame = f: Frame | f.ClientData? witness ClientData(0, 0, None)
  type ClientPollFrame = f: Frame | f.ClientPoll? witness ClientPoll(0, None)
  type ServerFrame = f: Frame | f.ServerData? witness ServerData(0, None)

  /** The frame with its SequenceId property set to `id`, as the senders
      do before encoding it; nothing else of the frame changes. */
  function WithSequenceId(f: SequencedFrame, id: int): (g: SequencedFrame)
    ensures g.sequenceId == id && g.payload == f.payload
    ensures g.ServerData? == f.ServerData?
    ensures g.ClientData? ==> g.clientId == f.clientId
  {
    if f.ServerData? then ServerData(id, f.payload) else ClientData(f.clientId, id, f.payload)
  }

  /** BitConverter.GetBytes(int) on a little-endian machine: the two's
      complement value, least significant byte first. */
  function Int32ToBytes(x: Int32): (b: Bytes)
    ensures |b| == 4
  {
    var u := if x < 0 then x + 0x1_0000_0000 else x;
    [u % 0x100, (u / 0x100) % 0x100, (u / 0x1_0000) % 0x100, u / 0x100_0000]
  }

  /** BitConverter.ToInt32(value, 0) on a little-endian machine, for a value
      of at least four bytes. */
  function BytesToInt32(value: Bytes): Int32
    requires |value| >= 4
  {
    var u := value[0] as int + 0x100 * (value[1] as int) + 0x1_0000 * (value[2] as int) + 0x100_0000 * (value[3] as int);
    if u >= 0x8000_0000 then u - 0x1_0000_0000 else u
  }

  /** Reading back the four bytes written for a client id gives that id. */
  lemma Int32RoundTrip(x: Int32)
    ensures BytesToInt32(Int32ToBytes(x)) == x
  {
    var u := if x < 0 then x + 0x1_0000_0000 else x;
    var b := Int32ToBytes(x);
    var q1, q2, q3 := u / 0x100, u / 0x1_0000, u / 0x100_0000;
    assert u == 0x100 * q1 + b[0];
    assert q1 == 0x100 * q2 + b[1];
    assert q2 == 0x100 * q3 + b[2];
    assert q3 == b[3];
  }
}
