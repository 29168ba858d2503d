/** The reordering buffer of Shared/FrameBuffer.cs as a function on values.
    A buffer holds one slot per sequence id `0..max`; frames that arrive in
    order are delivered at once, frames that arrive early wait in their slot,
    and a frame that closes a gap delivers the whole run of waiting frames
    behind it. The FrameBuffer class in frame_buffer.dfy is proved to follow
    `AddFrame` step by step.

    Three details are the corrected ones; the code as written, and an input
    on which it goes wrong, is in frame_buffer_findings.dfy:
    - a negative lower window bound wraps to `max + lower + 1`;
    - a frame delivered on the in-order path leaves its slot;
    - the gap bookkeeping works on slot ids: the missing list records
      `frameId % (max + 1)`, and the gap-closing walk covers one ring turn
      from the delivery position, `local + 1 .. local + max + 1`, so that it
      also runs when the frame closing the gap is id 0 after a wrap. */
module FrameBufferSpec {
  import opened Wrappers
  import opened Frames
  import opened SequenceCounters

  /** One slot per sequence id; `None` is an empty (null) array entry. */
  type Slots = seq<Option<SequencedFrame>>

  /** The fields of a FrameBuffer: the largest sequence id, the slots, the id
      of the last delivered frame (`local`), the highest id seen from the
      remote side (`remote`), whether no frame was accepted yet, and the list
      of ids recorded as missing (never pruned). */
  datatype BufferState = BufferState(
    max: int,
    slots: Slots,
    local: int,
    remote: int,
    unused: bool,
    missing: seq<int>)

  /** Why `Add` throws: an id above `max` (ArgumentOutOfRangeException), an
      id below zero (the array store throws IndexOutOfRangeException), or an
      expected frame outside the acceptance window (reported with the bounds
      the code computed). */
  datatype AddError =
    | IdAboveMax(frameId: int)
    | IdBelowZero(frameId: int)
    | OutsideWindow(frameId: int, lower: int, higher: int)

  /** The state after `Add`, and either the block of frames it delivered
      through its FrameReceived event (empty when no event is raised) or the
      exception it threw. */
  datatype AddOutcome = AddOutcome(state: BufferState, result: Result<seq<SequencedFrame>, AddError>)

  /** The outcome of the acceptance-window check: the verdict and the lower
      and higher bounds as adjusted by the code. */
  datatype WindowCheck = WindowCheck(accepted: bool, lower: int, higher: int)

  predicate WellFormed(st: BufferState)
  {
    0 <= st.max && |st.slots| == st.max + 1
  }

  /** A frame always sits in the slot of its own sequence id. */
  predicate SlotsHoldOwnIds(slots: Slots)
  {
    forall k :: 0 <= k < |slots| && slots[k].Some? ==> slots[k].value.sequenceId == k
  }

  /** What every reachable buffer state satisfies. */
  predicate Inv(st: BufferState)
  {
    && WellFormed(st)
    && SlotsHoldOwnIds(st.slots)
    && 0 <= st.local <= st.max
    && 0 <= st.remote <= st.max
    && (forall i :: 0 <= i < |st.missing| ==> 0 <= st.missing[i] <= st.max)
  }

  /** A fresh buffer: `new FrameBuffer(max)`. */
  function Initial(max: int): (st: BufferState)
    requires 0 <= max
    ensures Inv(st) && st.unused
    ensures forall k :: 0 <= k < |st.slots| ==> st.slots[k].None?
  {
    BufferState(max, seq(max + 1, _ => None), 0, 0, true, [])
  }

  // ---------------------------------------------------------------------
  // The acceptance window

  /** A C# integer division by 20, which truncates toward zero. */
  function TruncDiv20(a: int): (q: int)
    ensures a >= 0 ==> 0 <= 20 * q <= a < 20 * q + 20
    ensures a < 0 ==> 20 * q - 20 < a <= 20 * q <= 0
  {
    if a >= 0 then a / 20 else -((-a) / 20)
  }

  /** `(int)(remote - max * 0.3 / 2)`, with 0.3 taken as the exact 3/10. */
  function WindowLower(max: int, remote: int): int
  {
    TruncDiv20(20 * remote - 3 * max)
  }

  /** `(int)(remote + max * 0.3 / 2) + 1`, with 0.3 taken as the exact 3/10. */
  function WindowHigher(max: int, remote: int): int
  {
    TruncDiv20(20 * remote + 3 * max) + 1
  }

  /** The acceptance window check of an expected frame, with the code's
      branches: a window inside `0..max` is an interval; otherwise the upper
      bound wraps modulo `max + 1`, or, when only the lower bound is negative,
      it wraps to `max + lower + 1`, the id that many steps behind 0. */
  function AcceptanceWindow(max: int, remote: int, id: int): (w: WindowCheck)
    requires 0 <= max
  {
    var lower := WindowLower(max, remote);
    var higher := WindowHigher(max, remote);
    if lower >= 0 && higher <= max then
      WindowCheck(lower <= id <= higher, lower, higher)
    else
      var lo := if higher > max then lower else if lower < 0 then max + lower + 1 else lower;
      var hi := if higher > max then higher % (max + 1) else higher;
      WindowCheck((lo <= id <= max) || (0 <= id <= hi), lo, hi)
  }

  /** The id `d` steps ahead of `r` on the ring `0..max`, for `d <= max + 1`. */
  function RingForward(r: int, d: int, max: int): int
  {
    if r + d <= max then r + d else r + d - max - 1
  }

  /** The id `d` steps behind `r` on the ring `0..max`, for `d <= max + 1`. */
  function RingBack(r: int, d: int, max: int): int
  {
    if d <= r then r - d else r - d + max + 1
  }

  /** The new remote sequence number: the frame's id when it is higher than
      the old one or lies in the lowest 30% of the ring (a wrap), else the
      old one. */
  function NextRemote(max: int, remote: int, id: int): int
  {
    if id > remote || 10 * id < 3 * max then id else remote
  }

  // ---------------------------------------------------------------------
  // Walking the slots

  /** The run of occupied slots at ids `from, from + 1, ..., to` (taken
      modulo the number of slots), up to the first empty one: the frames the
      gap-closing loop collects. */
  function Run(slots: Slots, from: int, to: int): seq<SequencedFrame>
    requires |slots| > 0
    decreases if from <= to then to - from + 1 else 0
  {
    if from > to then []
    else match slots[from % |slots|]
      case None => []
      case Some(f) => [f] + Run(slots, from + 1, to)
  }

  /** One more occupied slot moves one frame from the rest of the walk to
      the collected prefix. */
  lemma RunGrows(prefix: seq<SequencedFrame>, slots: Slots, from: int, to: int)
    requires |slots| > 0 && from <= to && slots[from % |slots|].Some?
    ensures prefix + Run(slots, from, to) == (prefix + [slots[from % |slots|].value]) + Run(slots, from + 1, to)
  {
    assert Run(slots, from, to) == [slots[from % |slots|].value] + Run(slots, from + 1, to);
  }

  /** Whether slot `k` is one of the `n` slots visited from id `from`, for
      `0 <= from` and `from + n <= 2 * len`. */
  predicate Visited(k: int, from: int, n: int, len: int)
  {
    from <= k < from + n || from <= k + len < from + n
  }

  /** The slots after the gap-closing loop emptied the `n` slots it collected. */
  function Cleared(slots: Slots, from: int, n: int): (r: Slots)
    ensures |r| == |slots|
  {
    seq(|slots|, k requires 0 <= k < |slots| => if Visited(k, from, n, |slots|) then None else slots[k])
  }

  /** The slot ids of the ids `from..to` (taken modulo the number of slots)
      whose slots are empty, in the order visited: what the out-of-order
      branch appends to the missing list. A slot visited twice is listed
      twice. */
  function MissingIn(slots: Slots, from: int, to: int): (r: seq<int>)
    requires |slots| > 0
    ensures forall i :: 0 <= i < |r| ==> 0 <= r[i] < |slots|
    decreases if from <= to then to - from + 1 else 0
  {
    if from > to then []
    else MissingIn(slots, from, to - 1) + (if slots[to % |slots|].None? then [to % |slots|] else [])
  }

  /** The id of the last frame of `block`, or `prev` when it is empty. */
  function LastId(prev: int, block: seq<SequencedFrame>): int
  {
    if block == [] then prev else block[|block| - 1].sequenceId
  }

  /** The frames of `block` carry the consecutive ring ids that follow `prev`. */
  predicate Continues(prev: int, block: seq<SequencedFrame>, max: int)
    decreases |block|
  {
    block == [] ||
    (block[0].sequenceId == Successor(prev, max) && Continues(block[0].sequenceId, block[1..], max))
  }

  /** The frame is the next one the receiver waits for. */
  predicate IsExpectedNext(local: int, id: int, max: int)
  {
    id == local + 1 || (local == max && id == 0)
  }

  /** Bookkeeping done after every accepted frame. */
  function Settled(st: BufferState, id: int): BufferState
  {
    st.(remote := NextRemote(st.max, st.remote, id), unused := false)
  }

  // ---------------------------------------------------------------------
  // Add

  /** `FrameBuffer.Add`. The frame is stored in its slot before any branch
      is taken, so a frame rejected by the window check stays in the buffer. */
  function AddFrame(st: BufferState, f: SequencedFrame): (o: AddOutcome)
    requires Inv(st)
    ensures o.state.max == st.max && |o.state.slots| == |st.slots|
    ensures st.missing <= o.state.missing
    ensures o.result.Err? ==>
      o.state.local == st.local && o.state.remote == st.remote &&
      o.state.unused == st.unused && o.state.missing == st.missing
    ensures o.result.Ok? ==> !o.state.unused
  {
    var id := f.sequenceId;
    if id > st.max then
      AddOutcome(st, Err(IdAboveMax(id)))
    else if id < 0 then
      AddOutcome(st, Err(IdBelowZero(id)))
    else if st.unused then
      AddFirst(st, f)
    else if IsExpectedNext(st.local, id, st.max) then
      AddExpected(st, f)
    else
      AddAhead(st, f)
  }

  /** The first frame a buffer accepts is delivered at once. */
  function AddFirst(st: BufferState, f: SequencedFrame): AddOutcome
    requires Inv(st) && 0 <= f.sequenceId <= st.max
  {
    var id := f.sequenceId;
    AddOutcome(Settled(st.(slots := st.slots[id := Some(f)][id := None], local := id), id), Ok([f]))
  }

  /** The frame the receiver waits for: checked against the acceptance
      window, then either delivered with the run of frames waiting behind it,
      walking one ring turn from the delivery position (when its id was
      recorded as missing), or delivered alone and taken out of its slot. */
  function AddExpected(st: BufferState, f: SequencedFrame): AddOutcome
    requires Inv(st) && 0 <= f.sequenceId <= st.max
  {
    var id := f.sequenceId;
    var slots1 := st.slots[id := Some(f)];
    var w := AcceptanceWindow(st.max, st.remote, id);
    if !w.accepted then
      AddOutcome(st.(slots := slots1), Err(OutsideWindow(id, w.lower, w.higher)))
    else if id in st.missing then
      var block := Run(slots1, st.local + 1, st.local + st.max + 1);
      var st1 := st.(slots := Cleared(slots1, st.local + 1, |block|), local := LastId(st.local, block));
      AddOutcome(Settled(st1, id), Ok(block))
    else
      AddOutcome(Settled(st.(slots := slots1[id := None], local := id), id), Ok([f]))
  }

  /** A frame ahead of the expected one waits in its slot, and the empty
      slots up to one ring turn past it are recorded as missing. */
  function AddAhead(st: BufferState, f: SequencedFrame): AddOutcome
    requires Inv(st) && 0 <= f.sequenceId <= st.max
  {
    var id := f.sequenceId;
    var slots1 := st.slots[id := Some(f)];
    var st1 := st.(slots := slots1, missing := st.missing + MissingIn(slots1, st.local + 1, st.max + id));
    AddOutcome(Settled(st1, id), Ok([]))
  }

  /** The frames delivered by adding `fs` one after the other, and the final
      state; a rejected frame delivers nothing and the next one is added to
      the state the rejection left. */
  function AddAll(st: BufferState, fs: seq<SequencedFrame>): (r: (BufferState, seq<SequencedFrame>))
    requires Inv(st)
    ensures Inv(r.0) && r.0.max == st.max
    decreases |fs|
  {
    if fs == [] then (st, [])
    else
      AddPreservesInv(st, fs[0]);
      var o := AddFrame(st, fs[0]);
      var rest := AddAll(o.state, fs[1..]);
      (rest.0, (if o.result.Ok? then o.result.value else []) + rest.1)
  }

  // ---------------------------------------------------------------------
  // Arithmetic helpers

  lemma ModOnce(x: int, len: int)
    requires 0 <= x < 2 * len
    ensures x % len == if x < len then x else x - len
  {
    if x >= len {
      assert x - len == x % len by {
        assert x == 1 * len + (x - len);
      }
    }
  }

  /** One more visited slot is the slot of the next id. */
  lemma VisitedStep(k: int, from: int, n: int, len: int)
    requires 0 <= k < len && 0 <= from && 0 <= n && from + n < 2 * len && n < len
    ensures Visited(k, from, n + 1, len) <==> Visited(k, from, n, len) || k == (from + n) % len
  {
    ModOnce(from + n, len);
  }

  /** Emptying the slot of the next id clears one more visited slot. */
  lemma ClearedStep(slots: Slots, from: int, n: int)
    requires |slots| > 0 && 0 <= from && 0 <= n < |slots| && from + n < 2 * |slots|
    ensures Cleared(slots, from, n)[(from + n) % |slots| := None] == Cleared(slots, from, n + 1)
  {
    var b := (from + n) % |slots|;
    var before, after := Cleared(slots, from, n), Cleared(slots, from, n + 1);
    forall k | 0 <= k < |slots|
      ensures before[b := None][k] == after[k]
    {
      VisitedStep(k, from, n, |slots|);
    }
    assert before[b := None] == after;
  }

  // ---------------------------------------------------------------------
  // Lemmas about the window

  /** The window always accepts the remote sequence number and the id right
      after it on the ring. */
  lemma WindowAcceptsRemoteAndSuccessor(max: int, remote: int)
    requires 0 <= remote <= max
    ensures AcceptanceWindow(max, remote, remote).accepted
    ensures AcceptanceWindow(max, remote, Successor(remote, max)).accepted
  {
    var lower := WindowLower(max, remote);
    var higher := WindowHigher(max, remote);
    assert lower <= remote;
    assert remote + 1 <= higher;
    if higher > max {
      assert higher <= 2 * max + 1;
      ModOnce(higher, max + 1);
    }
  }

  /** The window accepts every id up to the tolerance behind the remote
      sequence number and up to the tolerance ahead of it, on both sides of
      the wrap of the ring. */
  lemma WindowCoversTolerance(max: int, remote: int, back: int, ahead: int)
    requires 0 <= remote <= max
    requires 0 <= back <= remote - WindowLower(max, remote)
    requires 0 <= ahead <= WindowHigher(max, remote) - remote
    ensures AcceptanceWindow(max, remote, RingBack(remote, back, max)).accepted
    ensures AcceptanceWindow(max, remote, RingForward(remote, ahead, max)).accepted
  {
    var higher := WindowHigher(max, remote);
    if higher > max {
      assert higher <= 2 * max + 1;
      ModOnce(higher, max + 1);
    }
  }

  /** The converse: an id on the ring that the window accepts lies within
      the tolerance behind the remote sequence number or within the
      tolerance ahead of it, across the wrap where the window wraps. */
  lemma WindowWithinTolerance(max: int, remote: int, id: int)
    requires 0 <= remote <= max && 0 <= id <= max
    requires AcceptanceWindow(max, remote, id).accepted
    ensures (exists back :: 0 <= back <= remote - WindowLower(max, remote) && id == RingBack(remote, back, max))
         || (exists ahead :: 0 <= ahead <= WindowHigher(max, remote) - remote && id == RingForward(remote, ahead, max))
  {
    var lower := WindowLower(max, remote);
    var higher := WindowHigher(max, remote);
    assert lower <= remote < higher;
    if higher > max {
      assert higher <= 2 * max + 1;
      ModOnce(higher, max + 1);
    }
    if id <= remote && remote - id <= remote - lower {
      assert id == RingBack(remote, remote - id, max);
    } else if remote < id <= higher {
      assert id == RingForward(remote, id - remote, max);
    } else if higher > max {
      assert id <= higher - max - 1;
      assert id == RingForward(remote, id + max + 1 - remote, max);
    } else {
      assert lower < 0 && max + lower + 1 <= id;
      assert id == RingBack(remote, remote - id + max + 1, max);
    }
  }

  // ---------------------------------------------------------------------
  // Lemmas about the slot walks

  /** The collected run reads consecutive slots from `from`, never more than
      the range, and stops only at an empty slot or the end of the range. */
  lemma {:induction false} RunShape(slots: Slots, from: int, to: int)
    requires |slots| > 0
    ensures |Run(slots, from, to)| <= if from <= to then to - from + 1 else 0
    ensures forall j :: 0 <= j < |Run(slots, from, to)| ==>
      slots[(from + j) % |slots|] == Some(Run(slots, from, to)[j])
    ensures from + |Run(slots, from, to)| <= to ==>
      slots[(from + |Run(slots, from, to)|) % |slots|].None?
    decreases if from <= to then to - from + 1 else 0
  {
    if from <= to && slots[from % |slots|].Some? {
      RunShape(slots, from + 1, to);
      var r := Run(slots, from, to);
      var tail := Run(slots, from + 1, to);
      assert r == [slots[from % |slots|].value] + tail;
      forall j | 0 <= j < |r|
        ensures slots[(from + j) % |slots|] == Some(r[j])
      {
        if j > 0 {
          assert r[j] == tail[j - 1];
          assert from + 1 + (j - 1) == from + j;
        }
      }
      assert from + 1 + |tail| == from + |r|;
    }
  }

  /** A run starting after `from - 1` carries the ring ids that follow
      `from - 1`, because every frame sits in the slot of its own id. */
  lemma {:induction false} RunContinues(slots: Slots, from: int, to: int)
    requires |slots| > 0 && SlotsHoldOwnIds(slots)
    requires 1 <= from && to < 2 * |slots|
    ensures Continues((from - 1) % |slots|, Run(slots, from, to), |slots| - 1)
    decreases if from <= to then to - from + 1 else 0
  {
    if from <= to && slots[from % |slots|].Some? {
      var f := slots[from % |slots|].value;
      RunContinues(slots, from + 1, to);
      ModOnce(from, |slots|);
      ModOnce(from - 1, |slots|);
      assert f.sequenceId == from % |slots| == Successor((from - 1) % |slots|, |slots| - 1);
      assert Run(slots, from, to) == [f] + Run(slots, from + 1, to);
    }
  }

  /** A slot id is recorded as missing exactly when its slot is empty and
      one of the ids `from..to`, less than two ring turns, falls on it. */
  lemma {:induction false} MissingInMembers(slots: Slots, from: int, to: int, x: int)
    requires |slots| > 0 && 0 <= from && to < 2 * |slots|
    ensures x in MissingIn(slots, from, to) <==>
      0 <= x < |slots| && slots[x].None? && (from <= x <= to || from <= x + |slots| <= to)
    decreases if from <= to then to - from + 1 else 0
  {
    if from <= to {
      MissingInMembers(slots, from, to - 1, x);
      ModOnce(to, |slots|);
    }
  }

  /** `Continues` over a concatenation. */
  lemma {:induction false} ContinuesAppend(prev: int, a: seq<SequencedFrame>, b: seq<SequencedFrame>, max: int)
    requires Continues(prev, a, max) && Continues(LastId(prev, a), b, max)
    ensures Continues(prev, a + b, max)
    ensures LastId(prev, a + b) == LastId(LastId(prev, a), b)
    decreases |a|
  {
    if a != [] {
      ContinuesAppend(a[0].sequenceId, a[1..], b, max);
      assert (a + b)[0] == a[0];
      assert (a + b)[1..] == a[1..] + b;
      if a[1..] == [] {
        assert LastId(prev, a) == a[0].sequenceId;
      } else {
        assert LastId(prev, a) == LastId(a[0].sequenceId, a[1..]);
      }
      if b != [] {
        assert LastId(prev, a + b) == LastId(a[0].sequenceId, a[1..] + b);
      }
      assert (a + b)[0].sequenceId == Successor(prev, max);
      assert Continues((a + b)[0].sequenceId, (a + b)[1..], max);
    } else {
      assert a + b == b;
    }
  }

  /** Frames of a consecutive block carry ids on the ring when `prev` does. */
  lemma {:induction false} ContinuesStaysOnRing(prev: int, block: seq<SequencedFrame>, max: int)
    requires 0 <= prev <= max && Continues(prev, block, max)
    ensures 0 <= LastId(prev, block) <= max
    decreases |block|
  {
    if block != [] {
      ContinuesStaysOnRing(block[0].sequenceId, block[1..], max);
      if block[1..] != [] {
        assert LastId(prev, block) == LastId(block[0].sequenceId, block[1..]);
      }
    }
  }

  // ---------------------------------------------------------------------
  // Lemmas about Add

  /** Every reachable state stays reachable: `Add` preserves the invariant
      on every path, the thrown ones included. */
  lemma AddPreservesInv(st: BufferState, f: SequencedFrame)
    requires Inv(st)
    ensures Inv(AddFrame(st, f).state)
  {
    var id := f.sequenceId;
    if 0 <= id <= st.max && !st.unused {
      if IsExpectedNext(st.local, id, st.max) {
        if AcceptanceWindow(st.max, st.remote, id).accepted && id in st.missing {
          FlushKeepsInv(st, f);
        }
      } else {
        ParkKeepsInv(st, f);
      }
    }
  }

  lemma FlushKeepsInv(st: BufferState, f: SequencedFrame)
    requires Inv(st) && !st.unused && 0 <= f.sequenceId <= st.max
    requires IsExpectedNext(st.local, f.sequenceId, st.max)
    requires AcceptanceWindow(st.max, st.remote, f.sequenceId).accepted && f.sequenceId in st.missing
    ensures Inv(AddFrame(st, f).state)
  {
    var id := f.sequenceId;
    var slots1 := st.slots[id := Some(f)];
    var block := Run(slots1, st.local + 1, st.local + st.max + 1);
    RunContinues(slots1, st.local + 1, st.local + st.max + 1);
    ModOnce(st.local, |slots1|);
    ContinuesStaysOnRing(st.local, block, st.max);
    ClearedKeepsOwnIds(slots1, st.local + 1, |block|);
    FlushOutcome(st, f);
  }

  /** Emptying slots keeps every remaining frame in its own slot. */
  lemma ClearedKeepsOwnIds(slots: Slots, from: int, n: int)
    requires SlotsHoldOwnIds(slots)
    ensures SlotsHoldOwnIds(Cleared(slots, from, n))
  {
    var r := Cleared(slots, from, n);
    forall k | 0 <= k < |r| && r[k].Some?
      ensures r[k].value.sequenceId == k
    {
      assert r[k] == slots[k];
    }
  }

  lemma ParkKeepsInv(st: BufferState, f: SequencedFrame)
    requires Inv(st) && !st.unused && 0 <= f.sequenceId <= st.max
    requires !IsExpectedNext(st.local, f.sequenceId, st.max)
    ensures Inv(AddFrame(st, f).state)
  {
    var id := f.sequenceId;
    var slots1 := st.slots[id := Some(f)];
    var missing := st.missing + MissingIn(slots1, st.local + 1, st.max + id);
    assert AddFrame(st, f).state == Settled(st.(slots := slots1, missing := missing), id);
  }

  /** Once a first frame was accepted, every `Add` delivers the frames that
      follow the last delivered one, in ring order and without a gap, and
      moves the delivery position to the last of them; a rejected frame
      leaves the position where it was. */
  lemma AddEmitsInOrder(st: BufferState, f: SequencedFrame)
    requires Inv(st) && !st.unused
    ensures var o := AddFrame(st, f);
      o.result.Ok? ==> Continues(st.local, o.result.value, st.max) && o.state.local == LastId(st.local, o.result.value)
    ensures AddFrame(st, f).result.Err? ==> AddFrame(st, f).state.local == st.local
  {
    var id := f.sequenceId;
    if 0 <= id <= st.max && IsExpectedNext(st.local, id, st.max)
      && AcceptanceWindow(st.max, st.remote, id).accepted {
      if id in st.missing {
        var slots1 := st.slots[id := Some(f)];
        RunContinues(slots1, st.local + 1, st.local + st.max + 1);
        ModOnce(st.local, |slots1|);
      } else {
        assert Continues(id, [f][1..], st.max);
      }
    }
  }

  /** The first frame a buffer accepts is delivered on its own, whatever its
      id, and becomes the delivery position; its slot is emptied. */
  lemma FirstFrameDelivered(st: BufferState, f: SequencedFrame)
    requires Inv(st) && st.unused && 0 <= f.sequenceId <= st.max
    ensures AddFrame(st, f).result == Ok([f])
    ensures AddFrame(st, f).state.local == f.sequenceId
    ensures AddFrame(st, f).state.slots[f.sequenceId].None?
  {
  }

  /** An id outside `0..max` is refused before anything is stored: the
      whole state, slots included, is left as it was. */
  lemma OutOfRangeIdTouchesNothing(st: BufferState, f: SequencedFrame)
    requires Inv(st) && (f.sequenceId > st.max || f.sequenceId < 0)
    ensures f.sequenceId > st.max ==> AddFrame(st, f) == AddOutcome(st, Err(IdAboveMax(f.sequenceId)))
    ensures f.sequenceId < 0 ==> AddFrame(st, f) == AddOutcome(st, Err(IdBelowZero(f.sequenceId)))
  {
  }

  /** The expected frame, accepted by the window and not recorded as
      missing, is delivered on its own, becomes the delivery position and
      leaves its slot empty; the missing list is untouched. */
  lemma ExpectedAlone(st: BufferState, f: SequencedFrame)
    requires Inv(st) && !st.unused && 0 <= f.sequenceId <= st.max
    requires IsExpectedNext(st.local, f.sequenceId, st.max)
    requires AcceptanceWindow(st.max, st.remote, f.sequenceId).accepted
    requires f.sequenceId !in st.missing
    ensures AddFrame(st, f).result == Ok([f])
    ensures AddFrame(st, f).state.local == f.sequenceId
    ensures AddFrame(st, f).state.slots == st.slots[f.sequenceId := None]
    ensures AddFrame(st, f).state.missing == st.missing
    ensures AddFrame(st, f).state.remote == NextRemote(st.max, st.remote, f.sequenceId)
  {
  }

  /** The gap-closing walk empties the slot of every frame it collects. */
  lemma RunSlotsCleared(slots: Slots, from: int, to: int)
    requires |slots| > 0 && SlotsHoldOwnIds(slots)
    requires 1 <= from && to < 2 * |slots|
    ensures forall j :: 0 <= j < |Run(slots, from, to)| ==>
      && 0 <= Run(slots, from, to)[j].sequenceId < |slots|
      && Cleared(slots, from, |Run(slots, from, to)|)[Run(slots, from, to)[j].sequenceId].None?
  {
    var block := Run(slots, from, to);
    RunShape(slots, from, to);
    forall j | 0 <= j < |block|
      ensures 0 <= block[j].sequenceId < |slots| && Cleared(slots, from, |block|)[block[j].sequenceId].None?
    {
      ModOnce(from + j, |slots|);
      var k := (from + j) % |slots|;
      assert slots[k] == Some(block[j]);
      assert Visited(k, from, |block|, |slots|);
    }
  }

  /** A frame that closes a recorded gap delivers itself first, followed by
      every frame that waited behind it, up to the next empty slot; all of
      their slots are emptied. */
  lemma GapFlush(st: BufferState, f: SequencedFrame)
    requires Inv(st) && !st.unused
    requires 0 <= f.sequenceId <= st.max && IsExpectedNext(st.local, f.sequenceId, st.max)
    requires AcceptanceWindow(st.max, st.remote, f.sequenceId).accepted
    requires f.sequenceId in st.missing
    ensures var o := AddFrame(st, f);
      && o.result.Ok? && |o.result.value| >= 1 && o.result.value[0] == f
      && (forall j :: 0 <= j < |o.result.value| ==>
            0 <= o.result.value[j].sequenceId <= st.max && o.state.slots[o.result.value[j].sequenceId].None?)
  {
    var id := f.sequenceId;
    var slots1 := st.slots[id := Some(f)];
    var from := st.local + 1;
    var block := Run(slots1, from, from + st.max);
    FlushOutcome(st, f);
    var o := AddFrame(st, f);
    assert o.result == Ok(block);
    assert o.state.slots == Cleared(slots1, from, |block|);
    ModOnce(from, |slots1|);
    assert from % |slots1| == id;
    assert block == [f] + Run(slots1, from + 1, from + st.max);
    RunSlotsCleared(slots1, from, from + st.max);
  }

  /** The outcome of `Add` for a frame that closes a recorded gap. */
  lemma FlushOutcome(st: BufferState, f: SequencedFrame)
    requires Inv(st) && !st.unused
    requires 0 <= f.sequenceId <= st.max && IsExpectedNext(st.local, f.sequenceId, st.max)
    requires AcceptanceWindow(st.max, st.remote, f.sequenceId).accepted
    requires f.sequenceId in st.missing
    ensures var slots1 := st.slots[f.sequenceId := Some(f)];
      var block := Run(slots1, st.local + 1, st.local + st.max + 1);
      AddFrame(st, f) == AddOutcome(
        Settled(st.(slots := Cleared(slots1, st.local + 1, |block|), local := LastId(st.local, block)), f.sequenceId),
        Ok(block))
  {
    assert AddFrame(st, f) == AddExpected(st, f);
    ExpectedFlushOutcome(st, f);
  }

  lemma ExpectedFlushOutcome(st: BufferState, f: SequencedFrame)
    requires Inv(st) && 0 <= f.sequenceId <= st.max
    requires AcceptanceWindow(st.max, st.remote, f.sequenceId).accepted
    requires f.sequenceId in st.missing
    ensures var slots1 := st.slots[f.sequenceId := Some(f)];
      var block := Run(slots1, st.local + 1, st.local + st.max + 1);
      AddExpected(st, f) == AddOutcome(
        Settled(st.(slots := Cleared(slots1, st.local + 1, |block|), local := LastId(st.local, block)), f.sequenceId),
        Ok(block))
  {
  }

  /** A frame that arrives ahead of the expected one is kept, nothing is
      delivered, and exactly the empty slots met on the way from the
      delivery position to the frame's id one ring turn ahead are appended
      as missing, by slot id. */
  lemma OutOfOrderParks(st: BufferState, f: SequencedFrame, x: int)
    requires Inv(st) && !st.unused
    requires 0 <= f.sequenceId <= st.max && !IsExpectedNext(st.local, f.sequenceId, st.max)
    ensures var o := AddFrame(st, f);
      && o.result == Ok([])
      && o.state.slots[f.sequenceId] == Some(f)
      && o.state.local == st.local
      && (x in o.state.missing[|st.missing|..] <==>
          && 0 <= x <= st.max && o.state.slots[x].None?
          && (st.local + 1 <= x <= st.max + f.sequenceId || st.local + 1 <= x + st.max + 1 <= st.max + f.sequenceId))
  {
    var id := f.sequenceId;
    var o := AddFrame(st, f);
    var slots1 := st.slots[id := Some(f)];
    var added := MissingIn(slots1, st.local + 1, st.max + id);
    assert o == AddAhead(st, f);
    assert o.state.slots == slots1 && o.state.missing == st.missing + added;
    assert (st.missing + added)[|st.missing|..] == added;
    MissingInMembers(slots1, st.local + 1, st.max + id, x);
  }

  /** While the frame the receiver waits for is absent, a frame arriving
      ahead records its id as missing, so that its arrival flushes the
      frames parked behind it. */
  lemma ExpectedGapRecorded(st: BufferState, f: SequencedFrame)
    requires Inv(st) && !st.unused
    requires 0 <= f.sequenceId <= st.max && !IsExpectedNext(st.local, f.sequenceId, st.max)
    requires st.slots[Successor(st.local, st.max)].None?
    ensures Successor(st.local, st.max) in AddFrame(st, f).state.missing
  {
    var e := Successor(st.local, st.max);
    var o := AddFrame(st, f);
    OutOfOrderParks(st, f, e);
    assert e in o.state.missing[|st.missing|..];
  }

  /** No delivered frame stays behind in the buffer: after any `Add` that
      delivers a block, the slot of every frame in it is empty. */
  lemma DeliveredFramesLeaveBuffer(st: BufferState, f: SequencedFrame)
    requires Inv(st)
    ensures var o := AddFrame(st, f);
      o.result.Ok? ==> forall j :: 0 <= j < |o.result.value| ==>
        0 <= o.result.value[j].sequenceId <= st.max && o.state.slots[o.result.value[j].sequenceId].None?
  {
    var id := f.sequenceId;
    if 0 <= id <= st.max {
      if st.unused {
        FirstFrameDelivered(st, f);
      } else if IsExpectedNext(st.local, id, st.max) && AcceptanceWindow(st.max, st.remote, id).accepted
        && id in st.missing {
        GapFlush(st, f);
      }
    }
  }

  /** The frames delivered over any sequence of `Add` calls on a buffer in
      use form one gap-free stream in ring order following the delivery
      position, and the final position is the id of the last delivered
      frame. */
  lemma {:induction false} AddAllDeliversInOrder(st: BufferState, fs: seq<SequencedFrame>)
    requires Inv(st) && !st.unused
    ensures Continues(st.local, AddAll(st, fs).1, st.max)
    ensures AddAll(st, fs).0.local == LastId(st.local, AddAll(st, fs).1)
    decreases |fs|
  {
    if fs != [] {
      AddPreservesInv(st, fs[0]);
      AddEmitsInOrder(st, fs[0]);
      var o := AddFrame(st, fs[0]);
      var block := if o.result.Ok? then o.result.value else [];
      assert Continues(st.local, block, st.max) && o.state.local == LastId(st.local, block);
      AddAllDeliversInOrder(o.state, fs[1..]);
      ContinuesAppend(st.local, block, AddAll(o.state, fs[1..]).1, st.max);
    }
  }
}
