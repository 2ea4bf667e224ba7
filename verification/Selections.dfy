/** Some elements of a list, in their order. */
module Selections {
  /** Ascending positions in a list of n elements. */
  ghost predicate Positions(at: seq<nat>, n: nat) {
    && (forall j :: 0 <= j < |at| ==> at[j] < n)
    && (forall j, k :: 0 <= j < k < |at| ==> at[j] < at[k])
  }

  /** `chosen` are the elements of `all` at these positions. */
  ghost predicate Selection<T>(all: seq<T>, chosen: seq<T>, at: seq<nat>) {
    && |at| == |chosen|
    && (forall j :: 0 <= j < |at| ==> at[j] < |all| && chosen[j] == all[at[j]])
    && (forall j, k :: 0 <= j < k < |at| ==> at[j] < at[k])
  }

  lemma SelectionSnoc<T>(all: seq<T>, chosen: seq<T>, at: seq<nat>, x: T)
    requires Selection(all, chosen, at)
    ensures Selection(all + [x], chosen, at)
    ensures Selection(all + [x], chosen + [x], at + [|all|])
  {
  }

  /** A selection of a selection. */
  lemma SelectionOfSelection<T>(all: seq<T>, some: seq<T>, few: seq<T>, at: seq<nat>, of: seq<nat>)
    returns (direct: seq<nat>)
    requires Selection(all, some, at) && Selection(some, few, of)
    ensures |direct| == |of| && forall j :: 0 <= j < |of| ==> direct[j] == at[of[j]]
    ensures Selection(all, few, direct)
  {
    direct := seq(|of|, j requires 0 <= j < |of| => at[of[j]]);
  }
}
