/**
 * main.go: runCommand's result and runCommandAndKeepAlive's restart loop.
 * Starting and waiting for the process are an oracle: each run of the command
 * is given as its outcome and its whole-second running time. The loop runs
 * for ever under Always, so it is modelled over a finite sequence of runs:
 * the result is where the loop stands once those runs are used up, or where
 * it returned.
 */
module KeepAlive {
  import opened Wrappers
  import opened Decimal
  import opened Backoff
  import opened RestartPolicies

  /** What starting and waiting for the process gave. */
  datatype CommandOutcome =
    | StartFailed
    | Exited(pid: int, waitFailed: bool, exitCode: int)

  /** runCommand's two results: the run's id and the exit code it reports. */
  datatype CommandResult = CommandResult(id: string, exitCode: int)

  /** One run of the command, as the oracle gives it. */
  datatype Run = Run(outcome: CommandOutcome, elapsedSeconds: nat)

  /** What the loop does after a run. */
  datatype Action = WontRerun | RerunAfter(seconds: nat)

  /** One turn of the loop: the run's id and exit code, the back-off counter after it, and the decision. */
  datatype Step = Step(id: string, exitCode: int, backoffCount: int, action: Action)

  datatype KeepAlive =
    | InvalidPolicy(message: string)
    | Stopped(steps: seq<Step>)
    | StillRunning(steps: seq<Step>)

  /** "%d:noPID:%d" when the start failed, "%d:%d:%d" (index, PID, attempt) otherwise. */
  function RunId(i: int, attempt: int, o: CommandOutcome): (id: string)
    ensures StartsWith(id, IntToString(i) + ":")
    ensures EndsWith(id, ":" + IntToString(attempt))
  {
    var head, tail := IntToString(i), IntToString(attempt);
    var middle := if o.StartFailed? then "noPID" else IntToString(o.pid);
    Fields(head, middle, tail);
    head + ":" + middle + ":" + tail
  }

  /** runCommand: -1 when the start fails, the process's code when Wait fails, 0 when it succeeds. */
  function RunCommand(i: int, attempt: int, o: CommandOutcome): (r: CommandResult)
    ensures r.id == RunId(i, attempt, o)
    ensures o.StartFailed? ==> r.exitCode == -1
    ensures o.Exited? ==> r.exitCode == (if o.waitFailed then o.exitCode else 0)
  {
    match o
    case StartFailed => CommandResult(RunId(i, attempt, o), -1)
    case Exited(_, waitFailed, code) => CommandResult(RunId(i, attempt, o), if waitFailed then code else 0)
  }

  /** The three fields of `head + ":" + middle + ":" + tail`, located by the lengths of the outer two. */
  lemma Fields(head: string, middle: string, tail: string)
    ensures var id := head + ":" + middle + ":" + tail;
      && |id| == |head| + |middle| + |tail| + 2
      && id[..|head|] == head
      && id[|head|] == ':'
      && id[|head| + 1..|head| + 1 + |middle|] == middle
      && id[|id| - |tail| - 1] == ':'
      && id[|id| - |tail|..] == tail
  {
    var id := head + ":" + middle + ":" + tail;
    assert id == head + ([':'] + middle + [':'] + tail);
    assert id == (head + [':'] + middle) + ([':'] + tail);
    assert id == (head + [':']) + middle + ([':'] + tail);
  }

  /** The id reads back: the index before the first ':', "noPID" after it iff the start failed, the attempt after the last ':'. */
  lemma RunIdFields(i: int, attempt: int, o: CommandOutcome)
    ensures var id, head, tail := RunId(i, attempt, o), IntToString(i), IntToString(attempt);
      && |id| > |head| + |tail| + 1
      && ParseInt(id[..|head|]) == Some(i)
      && id[|head|] == ':'
      && (id[|head| + 1] == 'n' <==> o.StartFailed?)
      && (o.StartFailed? ==> id[|head| + 1..|head| + 6] == "noPID")
      && id[|id| - |tail| - 1] == ':'
      && ParseInt(id[|id| - |tail|..]) == Some(attempt)
  {
    IntToStringRoundTrip(i);
    IntToStringRoundTrip(attempt);
    var head, tail := IntToString(i), IntToString(attempt);
    var middle := if o.StartFailed? then "noPID" else IntToString(o.pid);
    Fields(head, middle, tail);
    assert RunId(i, attempt, o)[|head| + 1] == middle[0];
  }

  /** The back-off counter after a run: reset to 0 by a run of at least ResetIfUpSeconds, otherwise one more. */
  function NextBackoffCount(count: int, elapsedSeconds: nat): (c: int)
    ensures elapsedSeconds >= ResetIfUpSeconds ==> c == 0
    ensures elapsedSeconds < ResetIfUpSeconds ==> c == count + 1
  {
    if elapsedSeconds >= ResetIfUpSeconds then 0 else count + 1
  }

  /** The counter after the first n runs; it starts at -1. */
  function BackoffCountAfter(runs: seq<Run>, n: nat): (c: int)
    requires n <= |runs|
    ensures n == 0 ==> c == -1
    ensures n > 0 ==> 0 <= c < n
  {
    if n == 0 then -1 else NextBackoffCount(BackoffCountAfter(runs, n - 1), runs[n - 1].elapsedSeconds)
  }

  /**
   * The `switch` on the policy once a run has ended: Never stops, Always backs
   * off and re-runs, OnFailure stops iff the run reported 0. An unknown policy
   * never gets this far (runCommandAndKeepAlive has already panicked on it);
   * here it falls in with OnFailure.
   */
  function Decide(policy: RestartPolicy, exitCode: int, backoffCount: int): (a: Action)
    ensures a.WontRerun? <==> policy == Never || (policy != Always && exitCode == 0)
    ensures a.RerunAfter? ==> a.seconds == ExpBackoffSeconds(backoffCount)
  {
    if policy == Never then WontRerun
    else if policy == Always then RerunAfter(ExpBackoffSeconds(backoffCount))
    else if exitCode == 0 then WontRerun
    else RerunAfter(ExpBackoffSeconds(backoffCount))
  }

  /** The turn for run k, which runCommand sees as attempt k. */
  function StepAt(i: int, policy: RestartPolicy, runs: seq<Run>, k: nat): Step
    requires k < |runs|
  {
    var r := RunCommand(i, k, runs[k].outcome);
    var count := BackoffCountAfter(runs, k + 1);
    Step(r.id, r.exitCode, count, Decide(policy, r.exitCode, count))
  }

  /** The first n turns. */
  function Steps(i: int, policy: RestartPolicy, runs: seq<Run>, n: nat): (s: seq<Step>)
    requires n <= |runs|
    ensures |s| == n && forall k :: 0 <= k < n ==> s[k] == StepAt(i, policy, runs, k)
  {
    if n == 0 then [] else Steps(i, policy, runs, n - 1) + [StepAt(i, policy, runs, n - 1)]
  }

  /** The first turn, from `from` on, that decides not to re-run, or |runs| when there is none. */
  function FirstStop(i: int, policy: RestartPolicy, runs: seq<Run>, from: nat): (f: nat)
    requires from <= |runs|
    ensures from <= f <= |runs|
    ensures f < |runs| ==> StepAt(i, policy, runs, f).action.WontRerun?
    ensures forall k :: from <= k < f ==> StepAt(i, policy, runs, k).action.RerunAfter?
    decreases |runs| - from
  {
    if from == |runs| then from
    else if StepAt(i, policy, runs, from).action.WontRerun? then from
    else FirstStop(i, policy, runs, from + 1)
  }

  /** A turn that re-runs moves the first stop past it; one that does not is the first stop. */
  lemma FirstStopNext(i: int, policy: RestartPolicy, runs: seq<Run>, n: nat)
    requires n < |runs| && FirstStop(i, policy, runs, 0) >= n
    ensures StepAt(i, policy, runs, n).action.RerunAfter? ==> FirstStop(i, policy, runs, 0) >= n + 1
    ensures StepAt(i, policy, runs, n).action.WontRerun? ==> FirstStop(i, policy, runs, 0) == n
  {
  }

  /** The panic's message: the fixed text, then the policy's number, which reads back. */
  function InvalidPolicyMessage(policy: RestartPolicy): (m: string)
    ensures |m| > 21 && m[..21] == "Invalid retry policy "
    ensures ParseInt(m[21..]) == Some(policy as int)
  {
    IntToStringRoundTrip(policy as int);
    "Invalid retry policy " + IntToString(policy as int)
  }

  /** runCommandAndKeepAlive over the given runs. */
  function KeepAliveSpec(i: int, policy: RestartPolicy, runs: seq<Run>): (r: KeepAlive)
    ensures r.InvalidPolicy? <==> !IsKnown(policy)
    ensures r.Stopped? ==> 0 < |r.steps| <= |runs| && r.steps[|r.steps| - 1].action.WontRerun?
    ensures r.StillRunning? ==> |r.steps| == |runs|
    ensures !r.InvalidPolicy? ==> forall k :: 0 <= k < |r.steps| - 1 ==> r.steps[k].action.RerunAfter?
  {
    if !IsKnown(policy) then InvalidPolicy(InvalidPolicyMessage(policy))
    else
      var f := FirstStop(i, policy, runs, 0);
      if f < |runs| then Stopped(Steps(i, policy, runs, f + 1)) else StillRunning(Steps(i, policy, runs, |runs|))
  }

  /** One turn of the loop for run k: runCommand, the counter update, the decision. */
  method Turn(i: int, policy: RestartPolicy, runs: seq<Run>, k: nat, backoffCount: int) returns (count: int, step: Step)
    requires k < |runs| && IsKnown(policy)
    requires backoffCount == BackoffCountAfter(runs, k)
    ensures count == BackoffCountAfter(runs, k + 1)
    ensures step == StepAt(i, policy, runs, k)
  {
    var run := runs[k];
    var result := RunCommand(i, k, run.outcome);
    count := backoffCount;
    if run.elapsedSeconds >= ResetIfUpSeconds {
      count := 0;
    } else {
      count := count + 1;
    }
    var action := Decide(policy, result.exitCode, count);
    step := Step(result.id, result.exitCode, count, action);
  }

  /** runCommandAndKeepAlive: validate the policy, then run, time, count and decide, turn by turn. */
  method RunCommandAndKeepAlive(i: int, policy: RestartPolicy, runs: seq<Run>) returns (r: KeepAlive)
    ensures r == KeepAliveSpec(i, policy, runs)
  {
    if policy != Always && policy != OnFailure && policy != Never {
      return InvalidPolicy(InvalidPolicyMessage(policy));
    }
    var runCount := -1;
    var backoffCount := -1;
    var steps: seq<Step> := [];
    while runCount + 1 < |runs|
      invariant -1 <= runCount < |runs|
      invariant backoffCount == BackoffCountAfter(runs, runCount + 1)
      invariant FirstStop(i, policy, runs, 0) >= runCount + 1
      invariant steps == Steps(i, policy, runs, runCount + 1)
    {
      runCount := runCount + 1;
      var step;
      backoffCount, step := Turn(i, policy, runs, runCount, backoffCount);
      steps := steps + [step];
      FirstStopNext(i, policy, runs, runCount);
      if step.action.WontRerun? {
        return Stopped(steps);
      }
    }
    return StillRunning(steps);
  }

  /** Under Never the loop returns after the first run. */
  lemma NeverRunsOnce(i: int, runs: seq<Run>)
    requires |runs| > 0
    ensures var r := KeepAliveSpec(i, Never, runs);
      r.Stopped? && |r.steps| == 1 && r.steps[0].action == WontRerun
  {
  }

  /** Under Always every run is followed by a back-off and another run. */
  lemma AlwaysKeepsRunning(i: int, runs: seq<Run>)
    ensures var r := KeepAliveSpec(i, Always, runs);
      && r.StillRunning? && |r.steps| == |runs|
      && forall k :: 0 <= k < |runs| ==> r.steps[k].action.RerunAfter?
  {
  }

  /**
   * Under OnFailure the loop stops iff some run reports exit code 0, right
   * after the first such run; every run before it reported another code and
   * was followed by a back-off.
   */
  lemma OnFailureStopsAtFirstSuccess(i: int, runs: seq<Run>)
    ensures var r := KeepAliveSpec(i, OnFailure, runs);
      && (r.Stopped? <==> exists k :: 0 <= k < |runs| && RunCommand(i, k, runs[k].outcome).exitCode == 0)
      && (r.Stopped? ==> r.steps[|r.steps| - 1].exitCode == 0)
      && (forall k :: 0 <= k < |r.steps| - 1 ==> r.steps[k].exitCode != 0 && r.steps[k].action.RerunAfter?)
      && (r.StillRunning? ==> |r.steps| == |runs|)
  {
    var f := FirstStop(i, OnFailure, runs, 0);
    if f == |runs| {
      forall k | 0 <= k < |runs|
        ensures RunCommand(i, k, runs[k].outcome).exitCode != 0
      {
        assert StepAt(i, OnFailure, runs, k).action.RerunAfter?;
      }
    }
  }

  /** runCommand reports -1 for a start failure, so OnFailure retries it. */
  lemma StartFailureIsRetried(i: int, runs: seq<Run>, k: nat)
    requires k < |runs| && runs[k].outcome.StartFailed?
    ensures StepAt(i, OnFailure, runs, k).action.RerunAfter?
    ensures StepAt(i, OnFailure, runs, k).exitCode == -1
  {
  }

  /** With no long run so far, the counter is the number of runs minus one. */
  lemma {:induction false} CountWithoutReset(runs: seq<Run>, n: nat)
    requires n <= |runs|
    requires forall j :: 0 <= j < n ==> runs[j].elapsedSeconds < ResetIfUpSeconds
    ensures BackoffCountAfter(runs, n) == n - 1
  {
    if n > 0 {
      CountWithoutReset(runs, n - 1);
    }
  }

  /** After the last long run j, the counter is the number of runs since j. */
  lemma {:induction false} CountSinceReset(runs: seq<Run>, j: nat, n: nat)
    requires j < n <= |runs|
    requires runs[j].elapsedSeconds >= ResetIfUpSeconds
    requires forall m :: j < m < n ==> runs[m].elapsedSeconds < ResetIfUpSeconds
    ensures BackoffCountAfter(runs, n) == n - 1 - j
  {
    if n > j + 1 {
      CountSinceReset(runs, j, n - 1);
    }
  }

  /**
   * Every back-off the loop sleeps lies between the base delay and the cap,
   * and a run that stayed up at least ResetIfUpSeconds is followed by the base delay.
   */
  lemma DelayBounds(i: int, policy: RestartPolicy, runs: seq<Run>, k: nat)
    requires k < |runs|
    ensures var a := StepAt(i, policy, runs, k).action;
      a.RerunAfter? ==> BaseDelaySeconds <= a.seconds <= CapSeconds
    ensures var a := StepAt(i, policy, runs, k).action;
      a.RerunAfter? && runs[k].elapsedSeconds >= ResetIfUpSeconds ==> a.seconds == BaseDelaySeconds
  {
  }
}
