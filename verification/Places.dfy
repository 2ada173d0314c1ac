/** Sub-lists by the places they are taken from. */
module Places {
  /** `kept` are the elements of `all` at these places, in order. */
  ghost predicate ArePicked<T>(kept: seq<T>, all: seq<T>, at: seq<nat>) {
    && |kept| == |at|
    && (forall k :: 0 <= k < |at| ==> at[k] < |all| && kept[k] == all[at[k]])
    && forall j, k :: 0 <= j < k < |at| ==> at[j] < at[k]
  }

  predicate AreBelow(at: seq<nat>, n: nat) {
    forall k :: 0 <= k < |at| ==> at[k] < n
  }

  lemma PickOneMore<T>(kept: seq<T>, all: seq<T>, at: seq<nat>, n: nat)
    requires ArePicked(kept, all, at) && AreBelow(at, n) && n < |all|
    ensures ArePicked(kept + [all[n]], all, at + [n]) && AreBelow(at + [n], n + 1) && AreBelow(at, n + 1) && n !in at
    ensures forall i :: i in at + [n] <==> i in at || i == n
  {
  }

  lemma PickNothing<T>(all: seq<T>)
    ensures ArePicked([], all, []) && AreBelow([], 0)
  {
  }
}
