/** `forEachIndexed`: calling an action on every element of a list together with its index. */
module CollectionUtils {

  /**
   * The state reached by performing the recorded calls, in order, from `init`; `action` gives the
   * effect of one call on the state it sees.
   */
  function Replay<S, T>(action: (S, nat, T) -> S, init: S, calls: seq<(nat, T)>): S
  {
    if calls == [] then init
    else
      var last := calls[|calls| - 1];
      action(Replay(action, init, calls[..|calls| - 1]), last.0, last.1)
  }

  /**
   * `forEachIndexed(list, action)`: one call per element, with indices 0, 1, ... in increasing
   * order and element `list[i]` at index `i`; `calls` records them and `state` is their effect.
   */
  method ForEachIndexed<T, S>(list: seq<T>, action: (S, nat, T) -> S, init: S) returns (state: S, calls: seq<(nat, T)>)
    ensures |calls| == |list|
    ensures forall k :: 0 <= k < |list| ==> calls[k] == (k, list[k])
    ensures state == Replay(action, init, calls)
  {
    state, calls := init, [];
    for i := 0 to |list|
      invariant |calls| == i
      invariant forall k :: 0 <= k < i ==> calls[k] == (k, list[k])
      invariant state == Replay(action, init, calls)
    {
      state := action(state, i, list[i]);
      calls := calls + [(i, list[i])];
      assert calls[..|calls| - 1] == calls[..i];
    }
  }

  /** Effects compose in call order: replaying two call sequences is replaying their concatenation. */
  lemma {:induction false} ReplayAppend<S, T>(action: (S, nat, T) -> S, init: S, first: seq<(nat, T)>, second: seq<(nat, T)>)
    ensures Replay(action, init, first + second) == Replay(action, Replay(action, init, first), second)
  {
    if second == [] {
      assert first + second == first;
    } else {
      var front := second[..|second| - 1];
      assert (first + second)[..|first + second| - 1] == first + front;
      ReplayAppend(action, init, first, front);
    }
  }
}
