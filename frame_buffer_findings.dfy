/** Three places where Shared/FrameBuffer.cs does not do what it evidently
    means to do. Each is shown on a copy of the code as written
    (`AddFrameAsWritten` and the functions it calls), with an input on which
    it goes wrong, next to the corrected `FrameBufferSpec.AddFrame`, which
    the rest of the model uses, on the same input:
    1. a negative lower window bound is moved past the largest id, so the
       window loses the ids just behind 0;
    2. a frame delivered on the in-order path stays in its slot, where the
       out-of-order branch later takes it for a waiting frame;
    3. the missing list records unwrapped ids and the gap-closing walk ends
       at `max + frameId`, so a gap at id 0 is never recorded, and would
       not be flushed if it were. */
module FrameBufferFindings {
  import opened Wrappers
  import opened Frames
  import opened FrameBufferSpec

  /** A server data frame with a one-byte payload telling frames of the same
      id apart. */
  function P(id: int, tag: Byte): SequencedFrame
  {
    ServerData(id, Some([tag]))
  }

  // ---------------------------------------------------------------------
  // The code as written

  /** The acceptance window as written: when only the lower bound is
      negative it becomes `max - lower - 1`, beyond the largest id. */
  function AcceptanceWindowAsWritten(max: int, remote: int, id: int): (w: WindowCheck)
    requires 0 <= max
  {
    var lower := WindowLower(max, remote);
    var higher := WindowHigher(max, remote);
    if lower >= 0 && higher <= max then
      WindowCheck(lower <= id <= higher, lower, higher)
    else
      var lo := if higher > max then lower else if lower < 0 then max - lower - 1 else lower;
      var hi := if higher > max then higher % (max + 1) else higher;
      WindowCheck((lo <= id <= max) || (0 <= id <= hi), lo, hi)
  }

  /** The missing ids as written: the unwrapped ids `from..to` whose slot
      is empty. */
  function MissingInAsWritten(slots: Slots, from: int, to: int): (r: seq<int>)
    requires |slots| > 0
    ensures forall i :: 0 <= i < |r| ==> from <= r[i] <= to
    decreases if from <= to then to - from + 1 else 0
  {
    if from > to then []
    else MissingInAsWritten(slots, from, to - 1) + (if slots[to % |slots|].None? then [to] else [])
  }

  /** `Add` as written. */
  function AddFrameAsWritten(st: BufferState, f: SequencedFrame): (o: AddOutcome)
    requires WellFormed(st)
    ensures WellFormed(o.state) && o.state.max == st.max
    ensures o.result.Err? ==> o.state.local == st.local && o.state.missing == st.missing
  {
    var id := f.sequenceId;
    if id > st.max then
      AddOutcome(st, Err(IdAboveMax(id)))
    else if id < 0 then
      AddOutcome(st, Err(IdBelowZero(id)))
    else if st.unused then
      AddOutcome(Settled(st.(slots := st.slots[id := Some(f)][id := None], local := id), id), Ok([f]))
    else if IsExpectedNext(st.local, id, st.max) then
      AddExpectedAsWritten(st, f)
    else
      AddAheadAsWritten(st, f)
  }

  /** The expected-frame branch as written: the window is the written one,
      the gap-closing walk ends at `max + id`, and a frame delivered alone
      stays in its slot. */
  function AddExpectedAsWritten(st: BufferState, f: SequencedFrame): (o: AddOutcome)
    requires WellFormed(st) && 0 <= f.sequenceId <= st.max
    ensures WellFormed(o.state) && o.state.max == st.max
  {
    var id := f.sequenceId;
    var slots1 := st.slots[id := Some(f)];
    var w := AcceptanceWindowAsWritten(st.max, st.remote, id);
    if !w.accepted then
      AddOutcome(st.(slots := slots1), Err(OutsideWindow(id, w.lower, w.higher)))
    else if id in st.missing then
      var block := Run(slots1, st.local + 1, st.max + id);
      var st1 := st.(slots := Cleared(slots1, st.local + 1, |block|), local := LastId(st.local, block));
      AddOutcome(Settled(st1, id), Ok(block))
    else
      AddOutcome(Settled(st.(slots := slots1, local := id), id), Ok([f]))
  }

  /** The out-of-order branch as written: unwrapped ids are recorded. */
  function AddAheadAsWritten(st: BufferState, f: SequencedFrame): (o: AddOutcome)
    requires WellFormed(st) && 0 <= f.sequenceId <= st.max
    ensures WellFormed(o.state) && o.state.max == st.max && o.result == Ok([])
  {
    var id := f.sequenceId;
    var slots1 := st.slots[id := Some(f)];
    var st1 := st.(slots := slots1, missing := st.missing + MissingInAsWritten(slots1, st.local + 1, st.max + id));
    AddOutcome(Settled(st1, id), Ok([]))
  }

  /** `AddAll` over the code as written. */
  function AddAllAsWritten(st: BufferState, fs: seq<SequencedFrame>): (r: (BufferState, seq<SequencedFrame>))
    requires WellFormed(st)
    ensures WellFormed(r.0) && r.0.max == st.max
    decreases |fs|
  {
    if fs == [] then (st, [])
    else
      var o := AddFrameAsWritten(st, fs[0]);
      var rest := AddAllAsWritten(o.state, fs[1..]);
      (rest.0, (if o.result.Ok? then o.result.value else []) + rest.1)
  }

  // ---------------------------------------------------------------------
  // 1. The lower bound of the acceptance window wraps the wrong way.

  /** As written: once the lower bound is below -1 (and the upper one does
      not wrap), the window accepts only `0..higher` and loses every id
      behind the remote number across the wrap. */
  lemma WindowBelowZeroDropsWrap(max: int, remote: int, id: int)
    requires 0 <= remote <= max
    requires WindowLower(max, remote) <= -2 && WindowHigher(max, remote) <= max
    ensures AcceptanceWindowAsWritten(max, remote, id).accepted <==> 0 <= id <= WindowHigher(max, remote)
  {
  }

  /** The two windows differ only once the lower bound is below -1, which
      the repository's unit tests never reach. */
  lemma WindowsAgreeAboveMinusTwo(max: int, remote: int, id: int)
    requires 0 <= max && WindowLower(max, remote) >= -1
    ensures AcceptanceWindowAsWritten(max, remote, id) == AcceptanceWindow(max, remote, id)
  {
  }

  /** As written, with ids `0..20`: after frame 19 and an early frame 0,
      the very frame the receiver waits for, 20, lies one step behind the
      remote number 0 and is refused. */
  lemma ExpectedFrameRefusedAcrossWrap()
    ensures var st := AddAllAsWritten(Initial(20), [P(19, 0), P(0, 0)]).0;
      && IsExpectedNext(st.local, 20, 20)
      && st.remote == 0
      && AddFrameAsWritten(st, P(20, 0)).result == Err(OutsideWindow(20, 22, 4))
  {
    var st0 := Initial(20);
    var st1 := AddFrameAsWritten(st0, P(19, 0)).state;
    assert st1 == BufferState(20, seq(21, _ => None), 19, 19, false, []);
    var st2 := AddFrameAsWritten(st1, P(0, 0)).state;
    assert st2.local == 19 && st2.remote == 0;
    assert [P(19, 0), P(0, 0)][1..] == [P(0, 0)];
    assert [P(0, 0)][1..] == [];
    assert AddAllAsWritten(st0, [P(19, 0), P(0, 0)]).0 == st2;
    assert AcceptanceWindowAsWritten(20, 0, 20) == WindowCheck(false, 22, 4);
  }

  /** Corrected, on the same input: frame 20 is accepted and closes the
      gap, delivering itself and the waiting frame 0. */
  lemma ExpectedFrameAcceptedAcrossWrap(fs: seq<SequencedFrame>)
    requires fs == [P(19, 0), P(0, 0), P(20, 0)]
    ensures AddAll(Initial(20), fs).1 == [P(19, 0), P(20, 0), P(0, 0)]
  {
    var st0 := Initial(20);
    var st1 := AddFrame(st0, fs[0]).state;
    assert st1 == BufferState(20, seq(21, _ => None), 19, 19, false, []);
    var slots2 := seq(21, _ => None)[0 := Some(P(0, 0))];
    ZeroWaitsBehindNineteen(st1, slots2);
    var st2 := BufferState(20, slots2, 19, 0, false, [20]);
    TwentyClosesGap(st2);
    var st3 := AddFrame(st2, fs[2]).state;
    AddPreservesInv(st2, fs[2]);
    assert AddAll(st3, fs[3..]) == (st3, []);
    assert fs[2..][0] == fs[2] && fs[2..][1..] == fs[3..];
    CorrectedStep(st2, fs[2..]);
    var d2 := [P(20, 0), P(0, 0)] + [];
    assert AddAll(st2, fs[2..]) == (st3, d2);
    assert fs[1..][0] == fs[1] && fs[1..][1..] == fs[2..];
    CorrectedStep(st1, fs[1..]);
    assert AddAll(st1, fs[1..]) == (st3, [] + d2);
    CorrectedStep(st0, fs);
    assert AddAll(st0, fs).1 == [P(19, 0)] + ([] + d2);
    assert [P(19, 0)] + ([] + d2) == [P(19, 0), P(20, 0), P(0, 0)];
  }

  lemma ZeroWaitsBehindNineteen(st1: BufferState, slots2: Slots)
    requires st1 == BufferState(20, seq(21, _ => None), 19, 19, false, [])
    requires slots2 == seq(21, _ => None)[0 := Some(P(0, 0))]
    ensures AddFrame(st1, P(0, 0)) == AddOutcome(BufferState(20, slots2, 19, 0, false, [20]), Ok([]))
  {
    assert MissingIn(slots2, 20, 20) == [20];
  }

  lemma TwentyClosesGap(st2: BufferState)
    requires st2 == BufferState(20, seq(21, _ => None)[0 := Some(P(0, 0))], 19, 0, false, [20])
    ensures Inv(st2)
    ensures AddFrame(st2, P(20, 0)).result == Ok([P(20, 0), P(0, 0)])
  {
    assert AcceptanceWindow(20, 0, 20) == WindowCheck(true, 18, 4);
    var slots3 := st2.slots[20 := Some(P(20, 0))];
    assert Run(slots3, 22, 40) == [];
    assert Run(slots3, 20, 40) == [P(20, 0), P(0, 0)];
  }

  // ---------------------------------------------------------------------
  // 2. A frame delivered on the in-order path stays in its slot.

  /** As written: a frame delivered because it is the expected one (and
      closes no recorded gap) is left in its slot. */
  lemma ExpectedFrameStaysInSlot(st: BufferState, f: SequencedFrame)
    requires WellFormed(st) && !st.unused && 0 <= f.sequenceId <= st.max
    requires IsExpectedNext(st.local, f.sequenceId, st.max)
    requires AcceptanceWindowAsWritten(st.max, st.remote, f.sequenceId).accepted
    requires f.sequenceId !in st.missing
    ensures AddFrameAsWritten(st, f).result == Ok([f])
    ensures AddFrameAsWritten(st, f).state.local == f.sequenceId
    ensures AddFrameAsWritten(st, f).state.slots[f.sequenceId] == Some(f)
  {
  }

  /** The frames of the stale-slot run, with ids `0..2`: one ring turn in
      order, then frame 2 of the next turn ahead of frame 1. */
  function StaleRun(): seq<SequencedFrame>
  {
    [P(0, 0), P(1, 0), P(2, 0), P(0, 1), P(2, 1), P(1, 1)]
  }

  /** As written: after one ring turn every slot holds an old frame. Frame
      2 (tag 1) then arrives ahead of frame 1; the out-of-order branch sees
      no empty slot and records nothing missing, so once frame 1 arrives,
      frame 2 (tag 1) waits in its slot unannounced, and the next frame
      with id 2 is delivered on its own in its place. */
  lemma StaleSlotHidesGap(fs: seq<SequencedFrame>)
    requires fs == StaleRun()
    ensures var r := AddAllAsWritten(Initial(2), fs);
      && r.1 == [P(0, 0), P(1, 0), P(2, 0), P(0, 1), P(1, 1)]
      && r.0.local == 1 && r.0.missing == [] && r.0.slots[2] == Some(P(2, 1))
      && AddFrameAsWritten(r.0, P(2, 2)).result == Ok([P(2, 2)])
  {
    StaleTail(0);
    assert StaleRun()[0..] == StaleRun();
    StaleDelivered();
    StaleLast();
  }

  lemma StaleDelivered()
    ensures StaleDeliveredFrom(0) == [P(0, 0), P(1, 0), P(2, 0), P(0, 1), P(1, 1)]
  {
  }

  lemma StaleLast()
    ensures AddFrameAsWritten(Stale(6), P(2, 2)).result == Ok([P(2, 2)])
  {
    var st := Stale(6);
    assert st == BufferState(2, [Some(P(0, 1)), Some(P(1, 1)), Some(P(2, 1))], 1, 2, false, []);
    assert AcceptanceWindowAsWritten(2, 2, 2) == WindowCheck(true, 1, 0);
    ExpectedFrameStaysInSlot(st, P(2, 2));
  }

  /** The frames delivered as written by the frames of `StaleRun` from the
      `k`-th on. */
  function StaleDeliveredFrom(k: nat): seq<SequencedFrame>
    decreases 6 - k
  {
    if k >= 6 then [] else (if k == 4 then [] else [StaleRun()[k]]) + StaleDeliveredFrom(k + 1)
  }

  /** The state as written after the first `n` frames of `StaleRun`. */
  function Stale(n: nat): BufferState
  {
    match n
    case 0 => Initial(2)
    case 1 => BufferState(2, [None, None, None], 0, 0, false, [])
    case 2 => BufferState(2, [None, Some(P(1, 0)), None], 1, 1, false, [])
    case 3 => BufferState(2, [None, Some(P(1, 0)), Some(P(2, 0))], 2, 2, false, [])
    case 4 => BufferState(2, [Some(P(0, 1)), Some(P(1, 0)), Some(P(2, 0))], 0, 0, false, [])
    case 5 => BufferState(2, [Some(P(0, 1)), Some(P(1, 0)), Some(P(2, 1))], 0, 2, false, [])
    case _ => BufferState(2, [Some(P(0, 1)), Some(P(1, 1)), Some(P(2, 1))], 1, 2, false, [])
  }

  /** As written, frame `n` of `StaleRun` takes `Stale(n)` to
      `Stale(n + 1)`; only frame 4 (id 2, tag 1) delivers nothing. */
  lemma StaleStep(n: nat)
    requires n < 6
    ensures WellFormed(Stale(n))
    ensures AddFrameAsWritten(Stale(n), StaleRun()[n]) ==
      AddOutcome(Stale(n + 1), if n == 4 then Ok([]) else Ok([StaleRun()[n]]))
  {
    if n == 0 {
      StaleFirst();
    } else if n == 4 {
      StaleParks();
    } else if n == 1 {
      StaleInOrder(1, P(1, 0));
    } else if n == 2 {
      StaleInOrder(2, P(2, 0));
    } else if n == 3 {
      StaleInOrder(3, P(0, 1));
    } else {
      StaleInOrder(5, P(1, 1));
    }
  }

  /** The in-order steps of `StaleRun`, as written. */
  lemma StaleInOrder(n: nat, f: SequencedFrame)
    requires n in {1, 2, 3, 5} && f == StaleRun()[n]
    ensures WellFormed(Stale(n))
    ensures AddFrameAsWritten(Stale(n), f) == AddOutcome(Stale(n + 1), Ok([f]))
  {
    var st := Stale(n);
    var id := f.sequenceId;
    assert AcceptanceWindowAsWritten(2, st.remote, id).accepted by {
      assert AcceptanceWindowAsWritten(2, 0, 1).accepted;
      assert AcceptanceWindowAsWritten(2, 1, 2).accepted;
      assert AcceptanceWindowAsWritten(2, 2, 0).accepted;
      assert AcceptanceWindowAsWritten(2, 2, 1).accepted;
    }
    AsWrittenInOrder(st, f);
    assert Settled(st.(slots := st.slots[id := Some(f)], local := id), id) == Stale(n + 1);
  }

  lemma StaleFirst()
    ensures AddFrameAsWritten(Stale(0), P(0, 0)) == AddOutcome(Stale(1), Ok([P(0, 0)]))
  {
    assert Initial(2).slots == [None, None, None];
  }

  /** As written, an accepted in-order frame that closes no recorded gap is
      delivered alone, stays in its slot and becomes the delivery position. */
  lemma AsWrittenInOrder(st: BufferState, f: SequencedFrame)
    requires WellFormed(st) && !st.unused && 0 <= f.sequenceId <= st.max
    requires IsExpectedNext(st.local, f.sequenceId, st.max)
    requires AcceptanceWindowAsWritten(st.max, st.remote, f.sequenceId).accepted
    requires f.sequenceId !in st.missing
    ensures AddFrameAsWritten(st, f) ==
      AddOutcome(Settled(st.(slots := st.slots[f.sequenceId := Some(f)], local := f.sequenceId), f.sequenceId), Ok([f]))
  {
  }

  lemma StaleParks()
    ensures AddFrameAsWritten(Stale(4), P(2, 1)) == AddOutcome(Stale(5), Ok([]))
  {
    var st := Stale(4);
    assert !IsExpectedNext(st.local, 2, 2);
    var slots1 := st.slots[2 := Some(P(2, 1))];
    assert slots1 == [Some(P(0, 1)), Some(P(1, 0)), Some(P(2, 1))];
    assert MissingInAsWritten(slots1, 1, 0) == [];
    assert MissingInAsWritten(slots1, 1, 1) == [];
    assert MissingInAsWritten(slots1, 1, 2) == [];
    assert MissingInAsWritten(slots1, 1, 3) == [];
    assert MissingInAsWritten(slots1, 1, 4) == [];
    assert AddAheadAsWritten(st, P(2, 1)) == AddOutcome(Stale(5), Ok([]));
  }

  /** Adding, as written, the frames of `StaleRun` from the `k`-th on to
      `Stale(k)`. */
  lemma {:induction false} StaleTail(k: nat)
    requires k <= 6
    ensures WellFormed(Stale(k))
    ensures AddAllAsWritten(Stale(k), StaleRun()[k..]) == (Stale(6), StaleDeliveredFrom(k))
    decreases 6 - k
  {
    if k < 6 {
      StaleStep(k);
      StaleTail(k + 1);
      assert StaleRun()[k..][1..] == StaleRun()[k + 1..];
    } else {
      assert StaleRun()[k..] == [];
    }
  }

  /** The corrected state after the first `n` frames of `StaleRun`. */
  function Fresh(n: nat): BufferState
  {
    match n
    case 0 => Initial(2)
    case 1 => BufferState(2, [None, None, None], 0, 0, false, [])
    case 2 => BufferState(2, [None, None, None], 1, 1, false, [])
    case 3 => BufferState(2, [None, None, None], 2, 2, false, [])
    case 4 => BufferState(2, [None, None, None], 0, 0, false, [])
    case 5 => BufferState(2, [None, None, Some(P(2, 1))], 0, 2, false, [1, 0, 1])
    case _ => BufferState(2, [None, None, None], 2, 2, false, [1, 0, 1])
  }

  /** The frames the corrected buffer delivers for the `n`-th frame of
      `StaleRun`. */
  function FreshBlock(n: nat): seq<SequencedFrame>
  {
    if n == 4 then [] else if n == 5 then [P(1, 1), P(2, 1)] else if n < 6 then [StaleRun()[n]] else []
  }

  /** Corrected, frame `n` of `StaleRun` takes `Fresh(n)` to `Fresh(n + 1)`. */
  lemma FreshStep(n: nat)
    requires n < 6
    ensures Inv(Fresh(n))
    ensures AddFrame(Fresh(n), StaleRun()[n]) == AddOutcome(Fresh(n + 1), Ok(FreshBlock(n)))
  {
    if n == 0 {
      FreshFirst();
    } else if n == 4 {
      FreshParks();
    } else if n == 5 {
      FreshCloses();
    } else {
      FreshInOrder(n, StaleRun()[n]);
    }
  }

  lemma FreshFirst()
    ensures AddFrame(Fresh(0), P(0, 0)) == AddOutcome(Fresh(1), Ok([P(0, 0)]))
  {
    assert Initial(2).slots == [None, None, None];
  }

  /** The in-order steps of `StaleRun`, corrected: each frame is delivered
      alone and every slot stays empty. */
  lemma FreshInOrder(n: nat, f: SequencedFrame)
    requires n in {1, 2, 3} && f == StaleRun()[n]
    ensures Inv(Fresh(n))
    ensures AddFrame(Fresh(n), f) == AddOutcome(Fresh(n + 1), Ok([f]))
  {
    var st := Fresh(n);
    var id := f.sequenceId;
    assert AcceptanceWindow(2, st.remote, id).accepted by {
      assert AcceptanceWindow(2, 0, 1).accepted;
      assert AcceptanceWindow(2, 1, 2).accepted;
      assert AcceptanceWindow(2, 2, 0).accepted;
    }
    assert st.slots[id := Some(f)][id := None] == [None, None, None];
    assert AddExpected(st, f) == AddOutcome(Fresh(n + 1), Ok([f]));
  }

  lemma FreshParks()
    ensures Inv(Fresh(4))
    ensures AddFrame(Fresh(4), P(2, 1)) == AddOutcome(Fresh(5), Ok([]))
  {
    var st := Fresh(4);
    assert !IsExpectedNext(st.local, 2, 2);
    var slots1 := st.slots[2 := Some(P(2, 1))];
    assert slots1 == [None, None, Some(P(2, 1))];
    assert MissingIn(slots1, 1, 0) == [];
    assert MissingIn(slots1, 1, 1) == [1];
    assert MissingIn(slots1, 1, 2) == [1];
    assert MissingIn(slots1, 1, 3) == [1, 0];
    assert MissingIn(slots1, 1, 4) == [1, 0, 1];
    assert AddAhead(st, P(2, 1)) == AddOutcome(Fresh(5), Ok([]));
  }

  lemma FreshCloses()
    ensures Inv(Fresh(5))
    ensures AddFrame(Fresh(5), P(1, 1)) == AddOutcome(Fresh(6), Ok([P(1, 1), P(2, 1)]))
  {
    var st := Fresh(5);
    assert IsExpectedNext(st.local, 1, 2) && 1 in st.missing;
    assert AcceptanceWindow(2, 2, 1) == WindowCheck(true, 1, 0);
    var slots1 := [None, Some(P(1, 1)), Some(P(2, 1))];
    assert st.slots[1 := Some(P(1, 1))] == slots1;
    assert Run(slots1, 3, 3) == [];
    assert Run(slots1, 2, 3) == [P(2, 1)];
    assert Run(slots1, 1, 3) == [P(1, 1), P(2, 1)];
    assert Cleared(slots1, 1, 2) == [None, None, None];
    assert AddExpected(st, P(1, 1)) == AddOutcome(Fresh(6), Ok([P(1, 1), P(2, 1)]));
  }

  /** The frames the corrected buffer delivers for the frames of
      `StaleRun` from the `k`-th on. */
  function FreshDeliveredFrom(k: nat): seq<SequencedFrame>
    decreases 6 - k
  {
    if k >= 6 then [] else FreshBlock(k) + FreshDeliveredFrom(k + 1)
  }

  lemma {:induction false} FreshTail(k: nat)
    requires k <= 6
    ensures Inv(Fresh(k))
    ensures AddAll(Fresh(k), StaleRun()[k..]) == (Fresh(6), FreshDeliveredFrom(k))
    decreases 6 - k
  {
    if k < 6 {
      FreshStep(k);
      FreshTail(k + 1);
      assert StaleRun()[k..][1..] == StaleRun()[k + 1..];
    } else {
      assert StaleRun()[k..] == [];
    }
  }

  /** Corrected, on the same input: every frame of the run is delivered
      once, in order, and the buffer ends empty. */
  lemma StaleRunDeliveredInFull(fs: seq<SequencedFrame>)
    requires fs == StaleRun()
    ensures var r := AddAll(Initial(2), fs);
      && r.1 == [P(0, 0), P(1, 0), P(2, 0), P(0, 1), P(1, 1), P(2, 1)]
      && r.0.local == 2 && r.0.slots == [None, None, None]
  {
    FreshTail(0);
    assert StaleRun()[0..] == fs;
    var r := AddAll(Initial(2), fs);
    assert r == (Fresh(6), FreshDeliveredFrom(0));
    FreshDelivered();
    assert r.1 == FreshOrder();
    assert r.0 == BufferState(2, [None, None, None], 2, 2, false, [1, 0, 1]);
  }

  /** The order in which the corrected buffer delivers `StaleRun`. */
  function FreshOrder(): seq<SequencedFrame>
  {
    [P(0, 0), P(1, 0), P(2, 0), P(0, 1), P(1, 1), P(2, 1)]
  }

  /** What is delivered from frame `k` on is a suffix of `FreshOrder`:
      frame 4 is parked and frame 5 releases two frames. */
  lemma {:induction false} FreshDeliveredSuffix(k: nat)
    requires k <= 6
    ensures FreshDeliveredFrom(k) == FreshOrder()[if k == 5 then 4 else k..]
    decreases 6 - k
  {
    var o := FreshOrder();
    if k == 6 {
      assert o[6..] == [];
    } else {
      FreshDeliveredSuffix(k + 1);
      if k == 5 {
        assert o[4..] == [P(1, 1), P(2, 1)];
      } else if k == 4 {
        assert FreshBlock(4) == [];
      } else {
        assert FreshBlock(k) == [o[k]];
        assert o[k..] == [o[k]] + o[k + 1..];
      }
    }
  }

  lemma FreshDelivered()
    ensures FreshDeliveredFrom(0) == FreshOrder()
  {
    FreshDeliveredSuffix(0);
    assert FreshOrder()[0..] == FreshOrder();
  }

  // ---------------------------------------------------------------------
  // 3. A gap at id 0 is never closed.

  /** As written, no id below `from` is ever recorded, so the walk from
      `local + 1 >= 1` never records id 0 as missing. */
  lemma {:induction false} ZeroNeverRecordedAsWritten(slots: Slots, from: int, to: int)
    requires |slots| > 0 && 1 <= from
    ensures 0 !in MissingInAsWritten(slots, from, to)
    ensures forall i :: 0 <= i < |MissingInAsWritten(slots, from, to)| ==>
      MissingInAsWritten(slots, from, to)[i] >= 1
    decreases if from <= to then to - from + 1 else 0
  {
    if from <= to {
      ZeroNeverRecordedAsWritten(slots, from, to - 1);
    }
  }

  /** As written, with ids `0..10`: after frame 10, frame 1 arrives ahead
      of frame 0 and records the unwrapped id 11 as missing. Frame 0 is then
      delivered alone, since 0 is not in the list, and frame 1 stays in its
      slot; the next frame, 2, is only parked in turn. */
  lemma GapAtZeroStrandsFrame(fs: seq<SequencedFrame>)
    requires fs == [P(10, 0), P(1, 0), P(0, 0)]
    ensures var r := AddAllAsWritten(Initial(10), fs);
      && r.1 == [P(10, 0), P(0, 0)]
      && r.0.local == 0 && r.0.missing == [11] && r.0.slots[1] == Some(P(1, 0))
      && AddFrameAsWritten(r.0, P(2, 0)).result == Ok([])
  {
    var st0 := Initial(10);
    var st1 := AddFrameAsWritten(st0, fs[0]).state;
    assert st1 == BufferState(10, seq(11, _ => None), 10, 10, false, []);
    var slots2 := seq(11, _ => None)[1 := Some(P(1, 0))];
    assert MissingInAsWritten(slots2, 11, 11) == [11];
    var st2 := BufferState(10, slots2, 10, 1, false, [11]);
    assert AddFrameAsWritten(st1, fs[1]) == AddOutcome(st2, Ok([]));
    assert AcceptanceWindowAsWritten(10, 1, 0) == WindowCheck(true, 0, 3);
    var st3 := BufferState(10, slots2[0 := Some(P(0, 0))], 0, 0, false, [11]);
    assert AddFrameAsWritten(st2, fs[2]) == AddOutcome(st3, Ok([P(0, 0)]));
    assert AddAllAsWritten(st3, fs[3..]) == (st3, []);
    assert fs[2..][0] == fs[2] && fs[2..][1..] == fs[3..];
    AsWrittenStep(st2, fs[2..]);
    var d2 := [P(0, 0)] + [];
    assert AddAllAsWritten(st2, fs[2..]) == (st3, d2);
    assert fs[1..][0] == fs[1] && fs[1..][1..] == fs[2..];
    AsWrittenStep(st1, fs[1..]);
    assert AddAllAsWritten(st1, fs[1..]) == (st3, [] + d2);
    assert [] + d2 == [P(0, 0)];
    AsWrittenStep(st0, fs);
    assert AddAllAsWritten(st0, fs) == (st3, [P(10, 0)] + ([] + d2));
    assert [P(10, 0)] + ([] + d2) == [P(10, 0), P(0, 0)];
  }

  /** One step of `AddAllAsWritten`. */
  lemma AsWrittenStep(st: BufferState, fs: seq<SequencedFrame>)
    requires WellFormed(st) && fs != []
    ensures var o := AddFrameAsWritten(st, fs[0]);
      AddAllAsWritten(st, fs) == (AddAllAsWritten(o.state, fs[1..]).0,
        (if o.result.Ok? then o.result.value else []) + AddAllAsWritten(o.state, fs[1..]).1)
  {
  }

  /** Corrected, on the same input: frame 1 records slot 0 as missing, and
      frame 0 closes that gap, walking one ring turn from the delivery
      position, and delivers itself and frame 1. */
  lemma GapAtZeroFlushed(fs: seq<SequencedFrame>)
    requires fs == [P(10, 0), P(1, 0), P(0, 0)]
    ensures var r := AddAll(Initial(10), fs);
      && r.1 == [P(10, 0), P(0, 0), P(1, 0)]
      && r.0.local == 1
  {
    var st0 := Initial(10);
    var st1 := AddFrame(st0, fs[0]).state;
    assert st1 == BufferState(10, seq(11, _ => None), 10, 10, false, []);
    var slots2 := seq(11, _ => None)[1 := Some(P(1, 0))];
    var st2 := BufferState(10, slots2, 10, 1, false, [0]);
    OneRecordsZero(st1, st2);
    ZeroClosesGap(st2);
    var st3 := AddFrame(st2, fs[2]).state;
    AddPreservesInv(st2, fs[2]);
    assert AddAll(st3, fs[3..]) == (st3, []);
    assert fs[2..][0] == fs[2] && fs[2..][1..] == fs[3..];
    CorrectedStep(st2, fs[2..]);
    var d2 := [P(0, 0), P(1, 0)] + [];
    assert AddAll(st2, fs[2..]) == (st3, d2);
    assert fs[1..][0] == fs[1] && fs[1..][1..] == fs[2..];
    CorrectedStep(st1, fs[1..]);
    assert AddAll(st1, fs[1..]) == (st3, [] + d2);
    CorrectedStep(st0, fs);
    assert AddAll(st0, fs) == (st3, [P(10, 0)] + ([] + d2));
    assert [P(10, 0)] + ([] + d2) == [P(10, 0), P(0, 0), P(1, 0)];
  }

  /** One step of `AddAll`. */
  lemma CorrectedStep(st: BufferState, fs: seq<SequencedFrame>)
    requires Inv(st) && fs != []
    ensures Inv(AddFrame(st, fs[0]).state)
    ensures var o := AddFrame(st, fs[0]);
      AddAll(st, fs) == (AddAll(o.state, fs[1..]).0,
        (if o.result.Ok? then o.result.value else []) + AddAll(o.state, fs[1..]).1)
  {
    AddPreservesInv(st, fs[0]);
  }

  lemma OneRecordsZero(st1: BufferState, st2: BufferState)
    requires st1 == BufferState(10, seq(11, _ => None), 10, 10, false, [])
    requires st2 == BufferState(10, seq(11, _ => None)[1 := Some(P(1, 0))], 10, 1, false, [0])
    ensures AddFrame(st1, P(1, 0)) == AddOutcome(st2, Ok([]))
  {
    assert MissingIn(st2.slots, 11, 11) == [0];
  }

  lemma ZeroClosesGap(st2: BufferState)
    requires st2 == BufferState(10, seq(11, _ => None)[1 := Some(P(1, 0))], 10, 1, false, [0])
    ensures Inv(st2)
    ensures AddFrame(st2, P(0, 0)).result == Ok([P(0, 0), P(1, 0)])
    ensures AddFrame(st2, P(0, 0)).state.local == 1
  {
    assert AcceptanceWindow(10, 1, 0) == WindowCheck(true, 0, 3);
    var slots3 := st2.slots[0 := Some(P(0, 0))];
    assert Run(slots3, 13, 21) == [];
    assert Run(slots3, 11, 21) == [P(0, 0), P(1, 0)];
  }
}
