/** Shared/FrameBuffer.cs: the buffer as an object over a fixed array of
    slots, proved to behave exactly as `FrameBufferSpec.AddFrame`. The
    FrameReceived event of the C# class is the block `Add` returns: a
    nonempty block is one raised event carrying those frames. */
module FrameBuffers {
  import opened Wrappers
  import opened Frames
  import opened FrameBufferSpec

  class FrameBuffer {
    const maxSequenceValue: int
    const buffer: array<Option<SequencedFrame>>
    var missingFrameIds: seq<int>
    var isUnused: bool
    var remoteSequenceNr: int
    var localSequenceNr: int

    /** The fields as a value of the specification. */
    ghost function State(): BufferState
      reads this, buffer
    {
      BufferState(maxSequenceValue, buffer[..], localSequenceNr, remoteSequenceNr, isUnused, missingFrameIds)
    }

    ghost predicate Valid()
      reads this, buffer
    {
      Inv(State())
    }

    /** `new FrameBuffer(maxSequenceValue)`: one empty slot per id. */
    constructor (maxSequenceValue: int)
      requires 0 <= maxSequenceValue
      ensures Valid() && State() == Initial(maxSequenceValue)
      ensures fresh(buffer)
    {
      this.maxSequenceValue := maxSequenceValue;
      this.buffer := new Option<SequencedFrame>[maxSequenceValue + 1](_ => None);
      this.missingFrameIds := [];
      this.isUnused := true;
      this.remoteSequenceNr := 0;
      this.localSequenceNr := 0;
      new;
      assert buffer[..] == Initial(maxSequenceValue).slots;
    }

    /** `Add(frame)`: returns the delivered block (empty when no event is
        raised) or the exception thrown. */
    method Add(frame: SequencedFrame) returns (r: Result<seq<SequencedFrame>, AddError>)
      requires Valid()
      modifies this, buffer
      ensures Valid()
      ensures AddOutcome(State(), r) == AddFrame(old(State()), frame)
    {
      var id := frame.sequenceId;
      if id > maxSequenceValue {
        return Err(IdAboveMax(id));
      }
      if id < 0 {
        return Err(IdBelowZero(id));
      }
      AddPreservesInv(State(), frame);
      if isUnused {
        r := AddFirstFrame(frame);
      } else if id == localSequenceNr + 1 || (localSequenceNr == maxSequenceValue && id == 0) {
        r := AddExpectedFrame(frame);
      } else {
        r := AddFrameAhead(frame);
      }
    }

    /** The first-frame branch of `Add`. */
    method AddFirstFrame(frame: SequencedFrame) returns (r: Result<seq<SequencedFrame>, AddError>)
      requires Valid() && 0 <= frame.sequenceId <= maxSequenceValue
      modifies this, buffer
      ensures AddOutcome(State(), r) == AddFirst(old(State()), frame)
    {
      var id := frame.sequenceId;
      buffer[id] := Some(frame);
      localSequenceNr := id;
      r := Ok([frame]);
      buffer[id] := None;
      Settle(id);
    }

    /** The expected-frame branch of `Add`. */
    method AddExpectedFrame(frame: SequencedFrame) returns (r: Result<seq<SequencedFrame>, AddError>)
      requires Valid() && 0 <= frame.sequenceId <= maxSequenceValue
      requires IsExpectedNext(localSequenceNr, frame.sequenceId, maxSequenceValue)
      modifies this, buffer
      ensures AddOutcome(State(), r) == AddExpected(old(State()), frame)
    {
      ghost var st := State();
      var id := frame.sequenceId;
      buffer[id] := Some(frame);
      var window := AcceptanceWindow(maxSequenceValue, remoteSequenceNr, id);
      if !window.accepted {
        return Err(OutsideWindow(id, window.lower, window.higher));
      }
      if id in missingFrameIds {
        r := CloseGap(frame, st);
        ExpectedFlushOutcome(st, frame);
      } else {
        r := DeliverAlone(frame, st);
      }
    }

    /** An accepted expected frame whose id was recorded as missing, already
        in its slot: the run of frames from the delivery position is
        collected. */
    method CloseGap(frame: SequencedFrame, ghost st: BufferState) returns (r: Result<seq<SequencedFrame>, AddError>)
      requires Inv(st) && 0 <= frame.sequenceId <= st.max
      requires State() == st.(slots := st.slots[frame.sequenceId := Some(frame)])
      modifies this, buffer
      ensures var slots1 := st.slots[frame.sequenceId := Some(frame)];
        var block := Run(slots1, st.local + 1, st.local + st.max + 1);
        && r == Ok(block)
        && State() == Settled(st.(slots := Cleared(slots1, st.local + 1, |block|), local := LastId(st.local, block)),
                              frame.sequenceId)
    {
      ghost var slots1 := buffer[..];
      assert slots1 == st.slots[frame.sequenceId := Some(frame)];
      assert localSequenceNr == st.local && |slots1| == buffer.Length == st.max + 1;
      var foundBlock := FlushFrom(localSequenceNr + 1, localSequenceNr + buffer.Length, slots1);
      if |foundBlock| > 0 {
        localSequenceNr := foundBlock[|foundBlock| - 1].sequenceId;
      }
      assert localSequenceNr == LastId(st.local, foundBlock);
      assert remoteSequenceNr == st.remote && missingFrameIds == st.missing;
      r := Ok(foundBlock);
      Settle(frame.sequenceId);
    }

    /** An accepted expected frame whose id was not recorded as missing,
        already in its slot: it is delivered alone and its slot emptied. */
    method DeliverAlone(frame: SequencedFrame, ghost st: BufferState) returns (r: Result<seq<SequencedFrame>, AddError>)
      requires Inv(st) && 0 <= frame.sequenceId <= st.max
      requires AcceptanceWindow(st.max, st.remote, frame.sequenceId).accepted && frame.sequenceId !in st.missing
      requires State() == st.(slots := st.slots[frame.sequenceId := Some(frame)])
      modifies this, buffer
      ensures AddOutcome(State(), r) == AddExpected(st, frame)
    {
      assert |buffer[..]| == |st.slots|;
      assert |st.slots| == st.max + 1;
      localSequenceNr := frame.sequenceId;
      r := Ok([frame]);
      buffer[frame.sequenceId] := None;
      Settle(frame.sequenceId);
    }

    /** The out-of-order branch of `Add`. */
    method AddFrameAhead(frame: SequencedFrame) returns (r: Result<seq<SequencedFrame>, AddError>)
      requires Valid() && 0 <= frame.sequenceId <= maxSequenceValue
      modifies this, buffer
      ensures AddOutcome(State(), r) == AddAhead(old(State()), frame)
    {
      ghost var st := State();
      var id := frame.sequenceId;
      buffer[id] := Some(frame);
      buffer[id] := Some(frame);
      ghost var slots1 := buffer[..];
      assert slots1 == st.slots[id := Some(frame)];
      RecordMissing(localSequenceNr + 1, id, slots1);
      r := Ok([]);
      Settle(id);
      assert State() == Settled(st.(slots := slots1, missing := st.missing + MissingIn(slots1, st.local + 1, st.max + id)), id);
    }

    /** The bookkeeping at the end of every accepted `Add`. */
    method Settle(id: int)
      modifies this`remoteSequenceNr, this`isUnused
      ensures remoteSequenceNr == NextRemote(maxSequenceValue, old(remoteSequenceNr), id)
      ensures !isUnused
    {
      remoteSequenceNr := if id > remoteSequenceNr || 10 * id < 3 * maxSequenceValue then id else remoteSequenceNr;
      isUnused := false;
    }

    /** The gap-closing loop: collects the occupied slots from id `from`
        (wrapping modulo the array length) up to the first empty slot or id
        `last`, emptying each collected slot. */
    method FlushFrom(from: int, last: int, ghost slots: Slots) returns (foundBlock: seq<SequencedFrame>)
      requires buffer[..] == slots && |slots| == maxSequenceValue + 1
      requires 1 <= from <= last + 1 <= from + buffer.Length && last < 2 * buffer.Length
      modifies buffer
      ensures foundBlock == Run(slots, from, last)
      ensures buffer[..] == Cleared(slots, from, |foundBlock|)
    {
      var len := buffer.Length;
      foundBlock := [];
      var sequenceId := from;
      assert Cleared(slots, from, 0) == slots;
      while sequenceId <= last
        invariant from <= sequenceId && (from <= last + 1 ==> sequenceId <= last + 1)
        invariant |foundBlock| == sequenceId - from
        invariant foundBlock + Run(slots, sequenceId, last) == Run(slots, from, last)
        invariant buffer[..] == Cleared(slots, from, sequenceId - from)
        decreases last + 1 - sequenceId
      {
        var bufferId := sequenceId % len;
        ModOnce(sequenceId, len);
        if buffer[bufferId].Some? {
          var f := buffer[bufferId].value;
          assert slots[bufferId] == Some(f);
          RunGrows(foundBlock, slots, sequenceId, last);
          foundBlock := foundBlock + [f];
          ghost var before := buffer[..];
          buffer[bufferId] := None;
          assert buffer[..] == before[bufferId := None];
          ClearedStep(slots, from, sequenceId - from);
        } else {
          break;
        }
        sequenceId := sequenceId + 1;
      }
    }

    /** The out-of-order loop: walks the ids from `from` to
        `maxSequenceValue + frameId` and appends to the missing list, in the
        order visited, the slot id of every one whose slot is empty. */
    method RecordMissing(from: int, frameId: int, ghost slots: Slots)
      requires 0 <= maxSequenceValue
      requires buffer[..] == slots && |slots| == maxSequenceValue + 1
      requires from <= maxSequenceValue + frameId + 1
      modifies this`missingFrameIds
      ensures missingFrameIds == old(missingFrameIds) + MissingIn(slots, from, maxSequenceValue + frameId)
    {
      var frameId' := from;
      while frameId' <= maxSequenceValue + frameId
        invariant from <= frameId' <= maxSequenceValue + frameId + 1
        invariant missingFrameIds == old(missingFrameIds) + MissingIn(slots, from, frameId' - 1)
        decreases maxSequenceValue + frameId + 1 - frameId'
      {
        var bufferId := frameId' % buffer.Length;
        if buffer[bufferId].None? {
          missingFrameIds := missingFrameIds + [bufferId];
        }
        frameId' := frameId' + 1;
      }
    }
  }
}
