/** Concrete runs of the frame buffer: the behaviours the repository's unit
    tests describe (PollingTcp.Tests/FrameBufferTests.cs), each derived from
    `AddFrame`. */
module FrameBufferScenarios {
  import opened Wrappers
  import opened Frames
  import opened FrameBufferSpec

  /** A server data frame without payload carrying sequence id `id`. */
  function F(id: int): SequencedFrame
  {
    ServerData(id, None)
  }

  /** With ids `0..10`, the first frame (id 5) is delivered on its own. */
  lemma SingleFrameIsNotBuffered()
    ensures AddFrame(Initial(10), F(5)).result == Ok([F(5)])
  {
  }

  /** Frames 5 then 6 are each delivered as they arrive. */
  lemma RightOrderedFramesAreNotBuffered()
    ensures var o1 := AddFrame(Initial(10), F(5));
      && o1.result == Ok([F(5)])
      && AddFrame(o1.state, F(6)).result == Ok([F(6)])
  {
    var o1 := AddFrame(Initial(10), F(5));
    assert o1.state.local == 5 && o1.state.remote == 5 && !o1.state.unused;
    assert AcceptanceWindow(10, 5, 6) == WindowCheck(true, 3, 7);
  }

  /** Frames 4, 6, 5: frame 6 waits, and frame 5 then delivers 5 and 6 as
      one block. */
  lemma WrongOrderedFramesAreBuffered()
    ensures AddAll(Initial(10), [F(4), F(6)]).1 == [F(4)]
    ensures AddAll(Initial(10), [F(4), F(6), F(5)]).1 == [F(4), F(5), F(6)]
  {
    FirstFrameOfTen(4);
    var st1 := AddFrame(Initial(10), F(4)).state;
    SixThenFive(st1);
    assert [F(4), F(6)][1..] == [F(6)];
    assert [F(4), F(6), F(5)][1..] == [F(6), F(5)];
  }

  lemma SixThenFive(st1: BufferState)
    requires st1 == BufferState(10, seq(11, _ => None), 4, 4, false, [])
    ensures AddAll(st1, [F(6)]).1 == []
    ensures AddAll(st1, [F(6), F(5)]).1 == [F(5), F(6)]
  {
    FrameSixWaits(st1);
    AddPreservesInv(st1, F(6));
    var st2 := AddFrame(st1, F(6)).state;
    GapClosedByFrameFive(st2);
    assert [F(6)][1..] == [];
    assert AddAll(st2, []).1 == [];
    assert [F(5)][1..] == [];
    assert AddAll(st2, [F(5)]).1 == [F(5), F(6)];
    assert [F(6), F(5)][1..] == [F(5)];
  }

  lemma FirstFrameOfTen(id: int)
    requires 0 <= id <= 10
    ensures AddFrame(Initial(10), F(id)) == AddOutcome(BufferState(10, seq(11, _ => None), id, id, false, []), Ok([F(id)]))
  {
  }

  lemma FrameSixWaits(st1: BufferState)
    requires st1 == BufferState(10, seq(11, _ => None), 4, 4, false, [])
    ensures var o2 := AddFrame(st1, F(6));
      && o2.result == Ok([])
      && o2.state.slots == seq(11, _ => None)[6 := Some(F(6))]
      && o2.state.local == 4 && o2.state.remote == 6 && !o2.state.unused
      && 5 in o2.state.missing
  {
    var slots2 := seq(11, _ => None)[6 := Some(F(6))];
    assert AddFrame(st1, F(6)).state.missing == MissingIn(slots2, 5, 16);
    MissingInMembers(slots2, 5, 16, 5);
  }

  lemma GapClosedByFrameFive(st2: BufferState)
    requires Inv(st2) && st2.max == 10 && st2.local == 4 && st2.remote == 6 && !st2.unused
    requires st2.slots == seq(11, _ => None)[6 := Some(F(6))]
    requires 5 in st2.missing
    ensures AddFrame(st2, F(5)).result == Ok([F(5), F(6)])
  {
    assert AcceptanceWindow(10, 6, 5) == WindowCheck(true, 4, 8);
    var slots3 := st2.slots[5 := Some(F(5))];
    assert Run(slots3, 7, 15) == [];
    assert Run(slots3, 5, 15) == [F(5), F(6)];
  }

  /** An id above the largest sequence id is refused. */
  lemma TooHighFrameIdIsRefused()
    ensures AddFrame(Initial(10), F(11)).result == Err(IdAboveMax(11))
  {
  }

  /** Frames 10 then 0 are delivered as they arrive across the wrap. */
  lemma OverrunWithOrderedFrames()
    ensures var o1 := AddFrame(Initial(10), F(10));
      && o1.result == Ok([F(10)])
      && AddFrame(o1.state, F(0)).result == Ok([F(0)])
  {
    var o1 := AddFrame(Initial(10), F(10));
    assert o1.state.local == 10 && o1.state.remote == 10;
    assert AcceptanceWindow(10, 10, 0) == WindowCheck(true, 8, 1);
  }

  /** Frames 9, 0, 10: frame 0 waits across the wrap, and frame 10 then
      delivers 10 and 0 as one block. */
  lemma OverrunWithUnorderedFrames()
    ensures var o1 := AddFrame(Initial(10), F(9));
      var o2 := AddFrame(o1.state, F(0));
      && o1.result == Ok([F(9)])
      && o2.result == Ok([])
      && AddFrame(o2.state, F(10)).result == Ok([F(10), F(0)])
  {
    var o1 := AddFrame(Initial(10), F(9));
    assert o1 == AddOutcome(BufferState(10, seq(11, _ => None), 9, 9, false, []), Ok([F(9)]));
    var o2 := AddFrame(o1.state, F(0));
    var slots2 := seq(11, _ => None)[0 := Some(F(0))];
    var missing2 := MissingIn(slots2, 10, 10);
    assert o2 == AddOutcome(BufferState(10, slots2, 9, 0, false, missing2), Ok([]));
    GapClosedByFrameTen(slots2, missing2);
  }

  lemma GapClosedByFrameTen(slots2: Slots, missing2: seq<int>)
    requires slots2 == seq(11, _ => None)[0 := Some(F(0))]
    requires missing2 == MissingIn(slots2, 10, 10)
    ensures AddFrame(BufferState(10, slots2, 9, 0, false, missing2), F(10)).result == Ok([F(10), F(0)])
  {
    assert missing2 == [10];
    var st2 := BufferState(10, slots2, 9, 0, false, missing2);
    assert Inv(st2);
    assert AcceptanceWindow(10, 0, 10) == WindowCheck(true, 10, 2);
    var slots3 := slots2[10 := Some(F(10))];
    assert Run(slots3, 12, 20) == [];
    assert Run(slots3, 10, 20) == [F(10), F(0)];
  }
}
