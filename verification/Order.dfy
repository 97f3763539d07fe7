/** Parts of a list that keep its order. */
module Order {
  /** Positions in a list of length `n`, from left to right and none twice. */
  predicate Picks(from: seq<nat>, n: nat) {
    && (forall i :: 0 <= i < |from| ==> from[i] < n)
    && (forall i, j :: 0 <= i < j < |from| ==> from[i] < from[j])
  }

  lemma PicksMore(from: seq<nat>, n: nat)
    requires Picks(from, n)
    ensures Picks(from, n + 1) && Picks(from + [n], n + 1)
  {
  }

  /** One more position in front. */
  function Shifted(from: seq<nat>): (r: seq<nat>)
    ensures |r| == |from| && forall i :: 0 <= i < |r| ==> r[i] == from[i] + 1
  {
    seq(|from|, i requires 0 <= i < |from| => from[i] + 1)
  }

  lemma PicksShifted(from: seq<nat>, n: nat)
    requires Picks(from, n)
    ensures Picks(Shifted(from), n + 1) && Picks([0] + Shifted(from), n + 1)
  {
  }
}
