/** Selections from a sequence, given by the places they are taken from. */
module Places {

  predicate Ordered(at: seq<nat>, n: nat) {
    (forall k :: 0 <= k < |at| ==> at[k] < n) && (forall j, k :: 0 <= j < k < |at| ==> at[j] < at[k])
  }

  function Shifted(at: seq<nat>): (r: seq<nat>)
    ensures |r| == |at| && forall k :: 0 <= k < |at| ==> r[k] == at[k] + 1
  {
    seq(|at|, k requires 0 <= k < |at| => at[k] + 1)
  }

  /** Places in a tail, seen from the whole sequence. */
  lemma ShiftedPlaces(at: seq<nat>, n: nat)
    requires Ordered(at, n)
    ensures Ordered(Shifted(at), n + 1) && 0 !in Shifted(at)
    ensures Ordered([0] + Shifted(at), n + 1)
    ensures forall i: nat :: i in at <==> i + 1 in Shifted(at)
  {
    hide Shifted;
    var all := [0] + Shifted(at);
    assert all[0] == 0;
    forall i: nat | i in at ensures i + 1 in Shifted(at) {
      var k :| 0 <= k < |at| && at[k] == i;
      assert Shifted(at)[k] == i + 1;
    }
    forall i: nat | i + 1 in Shifted(at) ensures i in at {
      var k :| 0 <= k < |at| && Shifted(at)[k] == i + 1;
      assert at[k] == i;
    }
  }
}
