/** The outgoing sequence counters. The sessions (Server/PollingClientSession.cs,
    Server/ClientSession.cs) advance with `c < max ? c + 1 : 0`; the transport
    layers increment first and reset to 0 once the value exceeds `max`. */
module SequenceCounters {

  /** The server sessions' advance rule. */
  function AdvanceOrWrap(c: int, max: int): int
  {
    if c < max then c + 1 else 0
  }

  /** The transport layers' advance rule. */
  function IncrementOrReset(c: int, max: int): int
  {
    if c + 1 > max then 0 else c + 1
  }

  /** The sequence id that follows `x` on a ring of ids `0..max`. */
  function Successor(x: int, max: int): int
  {
    if x == max then 0 else x + 1
  }

  /** The values `new Random(..).Next(1, max)` can return (it throws for max < 1). */
  predicate IsSeed(seed: int, max: int)
  {
    1 <= seed && (seed < max || seed == max == 1)
  }

  /** `ids` were stamped one after the other, first to last, by a counter
      on the ring `0..max` that started at `seed` and now holds `next`:
      every id is on the ring and is the ring successor of the one before. */
  ghost predicate StampedInTurn(seed: int, ids: seq<int>, next: int, max: int)
  {
    && 0 <= next <= max
    && (|ids| == 0 ==> next == seed)
    && (|ids| > 0 ==> ids[0] == seed && next == Successor(ids[|ids| - 1], max))
    && (forall j :: 0 <= j < |ids| ==> 0 <= ids[j] <= max)
    && (forall j :: 0 < j < |ids| ==> ids[j] == Successor(ids[j - 1], max))
  }

  /** Both advance rules agree on the ring `0..max`, keep the counter on it,
      and step to the ring successor. */
  lemma AdvanceRulesAgree(c: int, max: int)
    requires 0 <= c <= max
    ensures AdvanceOrWrap(c, max) == IncrementOrReset(c, max) == Successor(c, max)
    ensures 0 <= AdvanceOrWrap(c, max) <= max
  {
  }

  /** A seed lies on the ring `0..max`. */
  lemma SeedOnRing(seed: int, max: int)
    requires IsSeed(seed, max)
    ensures 0 <= seed <= max
  {
  }

  /** A fresh counter has stamped nothing. */
  lemma SeedStartsTurn(seed: int, max: int)
    requires IsSeed(seed, max)
    ensures StampedInTurn(seed, [], seed, max)
  {
  }

  /** Stamping the next frame with the counter and advancing it, by either
      rule, keeps the stamps consecutive on the ring. */
  lemma StampKeepsTurn(seed: int, ids: seq<int>, next: int, max: int)
    requires StampedInTurn(seed, ids, next, max)
    ensures StampedInTurn(seed, ids + [next], AdvanceOrWrap(next, max), max)
    ensures AdvanceOrWrap(next, max) == IncrementOrReset(next, max)
  {
    var ids' := ids + [next];
    assert forall j :: 0 <= j < |ids| ==> ids'[j] == ids[j];
  }
}
