/** Client/PollingTcpClient.cs: the oldest client, a connection state
    machine with nothing below it but a reference to a logical link layer.
    `Connect` checks that reference, then the state, and moves the client
    from Disconnected to Connecting; nothing moves it further. */
module PollingTcpClients {
  import opened Wrappers
  import opened StateLogs
  import opened PollingClients

  class PollingTcpClient {
    var connectionState: ConnectionState
    /** The ILogicalLinkLayer, of which only null-ness matters here. */
    const logicalLinkLayer: object?
    /** The ConnectionStateChanged notifications raised so far. */
    var stateChanges: seq<Change<ConnectionState>>

    /** The notifications lead from Disconnected to the current state, and
        every one of them reports the move to Connecting. */
    ghost predicate Valid()
      reads this
    {
      && Chain(stateChanges, Disconnected, connectionState)
      && (forall i :: 0 <= i < |stateChanges| ==> stateChanges[i] == Change(Disconnected, Connecting))
    }

    /** Keeps the link layer, null or not; the state is the enum's default,
        Disconnected. */
    constructor (logicalLinkLayer: object?)
      ensures Valid()
      ensures this.logicalLinkLayer == logicalLinkLayer
      ensures connectionState == Disconnected && stateChanges == []
    {
      this.logicalLinkLayer := logicalLinkLayer;
      connectionState := Disconnected;
      stateChanges := [];
    }

    /** Fails without a link layer, then fails outside Disconnected, and
        otherwise moves to Connecting with exactly one notification. */
    method Connect() returns (r: Outcome<ConnectError>)
      requires Valid()
      modifies this
      ensures Valid()
      ensures logicalLinkLayer == null ==> r == Fail(LogicalLinkLayerNotSet) && unchanged(this)
      ensures logicalLinkLayer != null && old(connectionState) != Disconnected ==>
        r == Fail(IllegalState(old(connectionState))) && unchanged(this)
      ensures logicalLinkLayer != null && old(connectionState) == Disconnected ==>
        && r == Pass
        && connectionState == Connecting
        && stateChanges == old(stateChanges) + [Change(Disconnected, Connecting)]
    {
      if logicalLinkLayer == null {
        return Fail(LogicalLinkLayerNotSet);
      }
      if connectionState != Disconnected {
        return Fail(IllegalState(connectionState));
      }
      SetNewConnectionState(Connecting);
      r := Pass;
    }

    /** Raises ConnectionStateChanged when, and only when, the state
        changes. */
    method SetNewConnectionState(state: ConnectionState)
      requires Valid()
      requires connectionState == state || Change(connectionState, state) == Change(Disconnected, Connecting)
      modifies this`connectionState, this`stateChanges
      ensures Valid()
      ensures connectionState == state
      ensures stateChanges == old(stateChanges) + ChangeLog(old(connectionState), state)
    {
      ChainExtends(stateChanges, Disconnected, connectionState, state);
      if connectionState != state {
        var oldState := connectionState;
        connectionState := state;
        stateChanges := stateChanges + [Change(oldState, state)];
      }
    }
  }

  /** A PollingTcpClient is connected at most once: a log of its
      notifications has at most one entry, and it is Connecting exactly
      when that entry is there. */
  lemma {:induction false} ConnectsOnce(log: seq<Change<ConnectionState>>, state: ConnectionState)
    requires Chain(log, Disconnected, state)
    requires forall i :: 0 <= i < |log| ==> log[i] == Change(Disconnected, Connecting)
    ensures |log| <= 1
    ensures state == (if |log| == 0 then Disconnected else Connecting)
  {
    if |log| > 0 {
      var rest := log[1..];
      assert Chain(rest, Connecting, state);
      if |rest| > 0 {
        assert false;
      }
    }
  }
}
