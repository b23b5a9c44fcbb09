/** The bounded readiness poll `waitfor` and the two polls the `clean`
    task makes with it. The block `waitfor` is given is modelled as an
    oracle: `probe[k]` is the answer of its k-th evaluation. Sleeping half a
    second is a counted step. */
module Polling {

  /** The threshold both the loop's exit test and the raise test use. */
  const MaxChecks: nat := 10

  /** The most evaluations of the block one poll can make: one per check
      value 0 .. MaxChecks + 1. */
  const MaxEvaluations: nat := MaxChecks + 2

  const TimeoutMessage := "Waitfor timeout expired. Make sure that you aren't running something from the build output folders, or that you have browsed to it through Explorer."

  datatype Outcome = Ready | TimedOut(message: string)

  /** The poll returns normally exactly for the oracles that answer true
      at some evaluation made while the counter is at most MaxChecks. */
  predicate Clears(probe: seq<bool>)
    requires |probe| > MaxChecks
  {
    exists k :: 0 <= k <= MaxChecks && probe[k]
  }

  /** `waitfor`: evaluate the block; stop when it holds or the counter has
      passed MaxChecks; otherwise sleep and count. Afterwards raise when the
      counter has passed MaxChecks, whatever the last evaluation said. */
  method WaitFor(probe: seq<bool>) returns (outcome: Outcome, checks: nat, evaluations: nat, sleeps: nat)
    requires |probe| >= MaxEvaluations
    ensures checks <= MaxChecks + 1
    ensures sleeps == checks
    ensures evaluations == checks + 1 && evaluations <= MaxEvaluations
    // The counter is the index of the first true answer, or MaxChecks + 1.
    ensures forall j :: 0 <= j < checks ==> !probe[j]
    ensures probe[checks] || checks == MaxChecks + 1
    ensures outcome.Ready? <==> Clears(probe)
    ensures outcome.TimedOut? <==> checks > MaxChecks
    ensures outcome.TimedOut? ==> outcome.message == TimeoutMessage
    ensures probe[0] ==> sleeps == 0 && outcome.Ready?
    // The boundary: a block that first holds on the last evaluation still
    // ends in the timeout error.
    ensures (forall j :: 0 <= j <= MaxChecks ==> !probe[j]) && probe[MaxChecks + 1] ==>
              evaluations == MaxEvaluations && probe[checks] && outcome.TimedOut?
  {
    checks, evaluations, sleeps := 0, 0, 0;
    while true
      invariant checks <= MaxChecks + 1
      invariant sleeps == checks && evaluations == checks
      invariant forall j :: 0 <= j < checks ==> !probe[j]
      decreases MaxChecks + 1 - checks
    {
      var holds := probe[evaluations];
      evaluations := evaluations + 1;
      if holds || checks > MaxChecks {
        break;
      }
      sleeps := sleeps + 1;
      checks := checks + 1;
    }
    if checks > MaxChecks {
      outcome := TimedOut(TimeoutMessage);
    } else {
      outcome := Ready;
    }
  }

  /** The polls of the `clean` task: remove the output root and wait for it
      to be gone, then the same for the artifacts root, then create both.
      A timeout on the first poll raises before the second removal. */
  method Clean(outputProbe: seq<bool>, artifactsProbe: seq<bool>)
    returns (outcome: Outcome, outputEvaluations: nat, artifactsEvaluations: nat, rootsCreated: bool)
    requires |outputProbe| >= MaxEvaluations && |artifactsProbe| >= MaxEvaluations
    ensures outcome.Ready? <==> Clears(outputProbe) && Clears(artifactsProbe)
    ensures outcome.TimedOut? ==> outcome.message == TimeoutMessage
    ensures rootsCreated <==> outcome.Ready?
    // Each poll evaluates its block up to and including the first true
    // answer, or MaxEvaluations times when none comes earlier.
    ensures 1 <= outputEvaluations <= MaxEvaluations
    ensures forall j :: 0 <= j < outputEvaluations - 1 ==> !outputProbe[j]
    ensures outputProbe[outputEvaluations - 1] || outputEvaluations == MaxEvaluations
    ensures artifactsEvaluations == 0 <==> !Clears(outputProbe)
    ensures Clears(outputProbe) ==>
              && 1 <= artifactsEvaluations <= MaxEvaluations
              && (forall j :: 0 <= j < artifactsEvaluations - 1 ==> !artifactsProbe[j])
              && (artifactsProbe[artifactsEvaluations - 1] || artifactsEvaluations == MaxEvaluations)
  {
    var checks, sleeps;
    outcome, checks, outputEvaluations, sleeps := WaitFor(outputProbe);
    artifactsEvaluations, rootsCreated := 0, false;
    if outcome.TimedOut? {
      return;
    }
    outcome, checks, artifactsEvaluations, sleeps := WaitFor(artifactsProbe);
    rootsCreated := outcome.Ready?;
  }
}
