/** Optional values and success-or-error results, used wherever the scripts or the API return early. */
module Outcomes {

  datatype Option<+T> = None | Some(value: T) {
    function GetOr(default: T): T {
      match this
      case Some(v) => v
      case None => default
    }
  }

  datatype Result<+T, +E> = Success(value: T) | Failure(error: E)

  /** `(success, message)`, as the batch scripts report each file's conversion or ingestion. */
  datatype Outcome = Outcome(ok: bool, message: string)

  /** How many of the outcomes are successes. */
  function Successes(outcomes: seq<Outcome>): (n: nat)
    ensures n <= |outcomes|
  {
    if |outcomes| == 0 then 0
    else Successes(outcomes[..|outcomes| - 1]) + (if outcomes[|outcomes| - 1].ok then 1 else 0)
  }

  /**
   The counters a batch script keeps while it walks its outcomes: one more success or one
   more failure per outcome, in order.
   */
  method Tally(outcomes: seq<Outcome>) returns (success: nat, failed: nat)
    ensures success == Successes(outcomes)
    ensures success + failed == |outcomes|
  {
    success, failed := 0, 0;
    var i := 0;
    while i < |outcomes|
      invariant 0 <= i <= |outcomes|
      invariant success == Successes(outcomes[..i]) && success + failed == i
    {
      assert outcomes[..i + 1][..i] == outcomes[..i];
      if outcomes[i].ok {
        success := success + 1;
      } else {
        failed := failed + 1;
      }
      i := i + 1;
    }
    assert outcomes[..i] == outcomes;
  }

  /** Every outcome is a success exactly when the successes are as many as the outcomes. */
  lemma {:induction false} AllSucceedIffCountFull(outcomes: seq<Outcome>)
    ensures Successes(outcomes) == |outcomes| <==> forall k :: 0 <= k < |outcomes| ==> outcomes[k].ok
    decreases |outcomes|
  {
    if |outcomes| > 0 {
      var front := outcomes[..|outcomes| - 1];
      AllSucceedIffCountFull(front);
      if forall k :: 0 <= k < |front| ==> front[k].ok {
        assert forall k :: 0 <= k < |outcomes| - 1 ==> outcomes[k].ok by {
          forall k | 0 <= k < |outcomes| - 1 ensures outcomes[k].ok {
            assert outcomes[k] == front[k];
          }
        }
      } else {
        var k :| 0 <= k < |front| && !front[k].ok;
        assert outcomes[k] == front[k];
      }
    }
  }
}
