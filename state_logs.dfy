/** The state-changed notifications shared by the server session
    (SessionStateChangedEventArgs) and the clients
    (ConnectionStateChangedEventArgs): each carries the previous and the new
    state, and is raised only when the two differ. */
module StateLogs {

  datatype Change<S> = Change(previous: S, state: S)

  /** What one `SetNew...State(state)` call raises when the current state is
      `previous`. */
  function ChangeLog<S(==)>(previous: S, state: S): (log: seq<Change<S>>)
    ensures |log| <= 1
    ensures |log| == 1 <==> previous != state
    ensures |log| == 1 ==> log[0] == Change(previous, state)
  {
    if previous != state then [Change(previous, state)] else []
  }

  /** `log` leads from state `from` to state `to`: each notification starts
      where the one before ended and changes the state. */
  predicate Chain<S(==)>(log: seq<Change<S>>, from: S, to: S)
    decreases |log|
  {
    if |log| == 0 then from == to
    else log[0].previous == from && log[0].previous != log[0].state && Chain(log[1..], log[0].state, to)
  }

  /** A state change raised at the end of a chain extends it to the new
      state. */
  lemma {:induction false} ChainExtends<S>(log: seq<Change<S>>, from: S, to: S, next: S)
    requires Chain(log, from, to)
    ensures Chain(log + ChangeLog(to, next), from, next)
  {
    if |log| == 0 {
      assert log + ChangeLog(to, next) == ChangeLog(to, next);
      if to != next {
        assert ChangeLog(to, next)[1..] == [];
      }
    } else {
      ChainExtends(log[1..], log[0].state, to, next);
      assert (log + ChangeLog(to, next))[1..] == log[1..] + ChangeLog(to, next);
    }
  }

  /** Every notification in a chain reports an actual change. */
  lemma {:induction false} ChainOnlyChanges<S>(log: seq<Change<S>>, from: S, to: S, i: int)
    requires Chain(log, from, to) && 0 <= i < |log|
    ensures log[i].previous != log[i].state
  {
    if i > 0 {
      ChainOnlyChanges(log[1..], log[0].state, to, i - 1);
    }
  }
}
