/**
 The runtime hook that watches tool failures: it counts how often the same recoverable failure came in a row, gives
 guidance from the second time on, and ends the run partially from the third.
 */
module FailureHook {
  import opened Prelude

  const STRONG_GUIDANCE_ATTEMPT := 2
  const PARTIAL_ATTEMPT := 3

  /** A tool result; its fingerprint is there exactly when it is a recoverable failure of a guarded kind. */
  datatype Observation = Observation(fingerprint: Option<string>)

  datatype Streak = Streak(fingerprint: string, attempts: nat)

  datatype Decision = Decision(guidance: bool, partial: bool)

  /** The fingerprint a batch counts for: that of its first recoverable failure. */
  function FirstFingerprint(batch: seq<Observation>): (r: Option<string>)
    ensures r.None? <==> forall k :: 0 <= k < |batch| ==> batch[k].fingerprint.None?
    ensures r.Some? ==> exists k :: 0 <= k < |batch| && batch[k].fingerprint == r
                                    && forall j :: 0 <= j < k ==> batch[j].fingerprint.None?
  {
    if batch == [] then None
    else if batch[0].fingerprint.Some? then batch[0].fingerprint
    else
      var r := FirstFingerprint(batch[1..]);
      assert forall k :: 0 < k < |batch| ==> batch[k] == batch[1..][k - 1];
      assert forall k :: 0 <= k < |batch| - 1 ==> batch[1..][k] == batch[k + 1];
      r
  }

  function Next(state: Option<Streak>, batch: seq<Observation>): Option<Streak> {
    match FirstFingerprint(batch)
    case None => None
    case Some(fp) =>
      if state.Some? && state.value.fingerprint == fp then Some(Streak(fp, state.value.attempts + 1))
      else Some(Streak(fp, 1))
  }

  class Hook {
    var state: Option<Streak>

    constructor ()
      ensures state == None
    {
      state := None;
    }

    /** `apply`. */
    method Apply(batch: seq<Observation>) returns (decision: Decision)
      modifies this
      ensures state == Next(old(state), batch)
      ensures decision.guidance <==> state.Some? && state.value.attempts >= STRONG_GUIDANCE_ATTEMPT
      ensures decision.partial <==> state.Some? && state.value.attempts >= PARTIAL_ATTEMPT
    {
      var i := 0;
      while i < |batch| && batch[i].fingerprint.None?
        invariant i <= |batch| && FirstFingerprint(batch[i..]) == FirstFingerprint(batch)
      {
        i := i + 1;
      }
      if i == |batch| {
        state := None;
        return Decision(false, false);
      }
      var fp := batch[i].fingerprint.value;
      var attempts := 1;
      if state.Some? && state.value.fingerprint == fp {
        attempts := state.value.attempts + 1;
      }
      state := Some(Streak(fp, attempts));
      decision := Decision(attempts >= STRONG_GUIDANCE_ATTEMPT, attempts >= PARTIAL_ATTEMPT);
    }
  }

  function Run(batches: seq<seq<Observation>>): Option<Streak> {
    if batches == [] then None else Next(Run(batches[..|batches| - 1]), batches[|batches| - 1])
  }

  /** The last `n` batches all count for this fingerprint. */
  predicate EndsWith(batches: seq<seq<Observation>>, fp: string, n: nat) {
    n <= |batches| && forall k :: |batches| - n <= k < |batches| ==> FirstFingerprint(batches[k]) == Some(fp)
  }

  /** After any history the stored attempts are the length of the trailing run of batches with one fingerprint. */
  lemma {:induction false} AttemptsAreTheTrailingRun(batches: seq<seq<Observation>>, fp: string, n: nat)
    requires n > 0
    ensures EndsWith(batches, fp, n)
            <==> Run(batches).Some? && Run(batches).value.fingerprint == fp && n <= Run(batches).value.attempts
  {
    if batches != [] {
      var before, last := batches[..|batches| - 1], batches[|batches| - 1];
      if n > 1 {
        AttemptsAreTheTrailingRun(before, fp, n - 1);
        assert EndsWith(batches, fp, n) <==> EndsWith(before, fp, n - 1) && FirstFingerprint(last) == Some(fp) by {
          assert forall k :: 0 <= k < |before| ==> before[k] == batches[k];
          assert batches[|before|] == last;
        }
      }
      AttemptsArePositive(before);
    }
  }

  lemma {:induction false} AttemptsArePositive(batches: seq<seq<Observation>>)
    ensures Run(batches).Some? ==> Run(batches).value.attempts > 0
  {
    if batches != [] {
      AttemptsArePositive(batches[..|batches| - 1]);
    }
  }

  /** The run ends partially exactly when the last three batches failed in the same way. */
  lemma PartialExactlyAfterThree(batches: seq<seq<Observation>>)
    ensures (Run(batches).Some? && Run(batches).value.attempts >= PARTIAL_ATTEMPT)
            <==> exists fp :: EndsWith(batches, fp, PARTIAL_ATTEMPT)
  {
    if Run(batches).Some? {
      AttemptsAreTheTrailingRun(batches, Run(batches).value.fingerprint, PARTIAL_ATTEMPT);
    }
    forall fp | EndsWith(batches, fp, PARTIAL_ATTEMPT)
      ensures Run(batches).Some? && Run(batches).value.attempts >= PARTIAL_ATTEMPT
    {
      AttemptsAreTheTrailingRun(batches, fp, PARTIAL_ATTEMPT);
    }
  }
}
