/**
 * main.go: runProcessSwarm. Every process spec is launched as many times as
 * it has replicas, in spec order, each launch numbered by a running count
 * from 0; all of them share one table of used numbers for their dynamic
 * arguments. The keep-alive loops themselves run concurrently and are
 * modelled separately; here a launch is the call that starts one.
 */
module ProcessSwarmRun {
  import opened Wrappers
  import opened Decimal
  import opened DynamicArgs
  import opened RestartPolicies

  /** One entry of the swarm file's `processes` list; cmd[0] is the command, the rest its arguments. */
  datatype ProcessSpec = ProcessSpec(name: string, cmd: seq<Arg>, restart: string, replicas: int)

  /** One `go runCommandAndKeepAlive(count, …)`, with the arguments as written and as rewritten. */
  datatype Launch = Launch(index: nat, command: string, template: seq<Arg>, args: seq<string>, policy: RestartPolicy)

  /** The line printed first, the launches made, and the panic that ended the loop, if any. */
  datatype SwarmRun = SwarmRun(announcement: string, launches: seq<Launch>, failure: Option<string>)

  /** The state of the two nested loops: launches so far, used numbers, panic. */
  datatype Progress = Progress(launches: seq<Launch>, used: set<int>, failure: Option<string>)

  const NoSpecsMessage := "No process specs to run"
  /** Taking s.Cmd[1:] of an empty command panics. */
  const EmptyCommandPanic := "runtime error: slice bounds out of range [1:0]"

  /** "Found %d process specs": the count reads back from between the two fixed parts. */
  function FoundMessage(n: int): (m: string)
    ensures StartsWith(m, "Found ") && EndsWith(m, " process specs")
    ensures |m| >= 20 && ParseInt(m[6..|m| - 14]) == Some(n)
  {
    IntToStringRoundTrip(n);
    var d := IntToString(n);
    var m := "Found " + d + " process specs";
    assert m[6..|m| - 14] == d;
    m
  }

  /** A negative replica count runs the inner loop zero times. */
  function Replicas(s: ProcessSpec): (n: nat)
    ensures s.replicas >= 0 ==> n == s.replicas
    ensures s.replicas < 0 ==> n == 0
  {
    if s.replicas < 0 then 0 else s.replicas
  }

  /**
   * The body of the inner loop: rewrite the arguments, then launch, unless
   * something panicked. A launch only appends, numbered by the launches so
   * far, and the table only grows.
   */
  function LaunchOne(p: Progress, s: ProcessSpec): (r: Progress)
    ensures p.failure.Some? ==> r == p
    ensures p.used <= r.used
    ensures r.failure.Some? ==> r.launches == p.launches
    ensures r.failure.None? ==> |r.launches| == |p.launches| + 1 && r.launches[..|p.launches|] == p.launches
    ensures r.failure.None? ==> r.launches[|p.launches|].index == |p.launches| && LaunchOf(r.launches[|p.launches|], s)
  {
    if p.failure.Some? then p
    else if |s.cmd| == 0 then Progress(p.launches, p.used, Some(EmptyCommandPanic))
    else
      var a := Replace(s.cmd[1..], p.used);
      match a.result
      case Panic(m) => Progress(p.launches, a.used, Some(m))
      case Replaced(args) =>
        Progress(p.launches + [Launch(|p.launches|, s.cmd[0].text, s.cmd[1..], args, FromName(s.restart))], a.used, None)
  }

  /** The first `rep` replicas of one spec. */
  function LaunchReplicas(p: Progress, s: ProcessSpec, rep: nat): Progress {
    if rep == 0 then p else LaunchOne(LaunchReplicas(p, s, rep - 1), s)
  }

  /** The launches of the first n specs, from an empty table. */
  function LaunchSpecs(specs: seq<ProcessSpec>, n: nat): Progress
    requires n <= |specs|
  {
    if n == 0 then Progress([], {}, None)
    else LaunchReplicas(LaunchSpecs(specs, n - 1), specs[n - 1], Replicas(specs[n - 1]))
  }

  /** runProcessSwarm: without specs it only says so; with specs it reports their number and launches. */
  function SwarmSpec(specs: seq<ProcessSpec>): (r: SwarmRun)
    ensures r.announcement == NoSpecsMessage <==> |specs| == 0
    ensures |specs| == 0 ==> r.launches == [] && r.failure.None?
    ensures |specs| > 0 ==> r.announcement == FoundMessage(|specs|)
  {
    if |specs| < 1 then SwarmRun(NoSpecsMessage, [], None)
    else
      var p := LaunchSpecs(specs, |specs|);
      SwarmRun(FoundMessage(|specs|), p.launches, p.failure)
  }

  /** The sum of the replica counts of the first n specs. */
  function TotalReplicas(specs: seq<ProcessSpec>, n: nat): nat
    requires n <= |specs|
  {
    if n == 0 then 0 else TotalReplicas(specs, n - 1) + Replicas(specs[n - 1])
  }

  /** One pass of the inner loop's body, against the shared table. */
  method LaunchReplica(s: ProcessSpec, count: nat, used: UsedNumbers) returns (launch: Launch, failure: Option<string>)
    modifies used
    ensures var p := LaunchOne(Progress([], old(used.numbers), None), s);
      && p.used == used.numbers
      && p.failure == failure
      && (failure.None? ==> |p.launches| == 1 && launch == p.launches[0].(index := count))
  {
    if |s.cmd| == 0 {
      return Launch(count, "", [], [], Always), Some(EmptyCommandPanic);
    }
    var r := GetDynamicArgsOrPanic(s.cmd[1..], used);
    if r.Panic? {
      return Launch(count, "", [], [], Always), Some(r.message);
    }
    launch := Launch(count, s.cmd[0].text, s.cmd[1..], r.args, FromName(s.restart));
    failure := None;
  }

  /** LaunchOne depends on the launches so far only through their number. */
  lemma LaunchOneShifts(p: Progress, s: ProcessSpec)
    requires p.failure.None?
    ensures var q := LaunchOne(Progress([], p.used, None), s);
      var r := LaunchOne(p, s);
      && r.used == q.used && r.failure == q.failure
      && (q.failure.None? ==> |q.launches| == 1 && r.launches == p.launches + [q.launches[0].(index := |p.launches|)])
      && (q.failure.Some? ==> r.launches == p.launches)
  {
  }

  /** runProcessSwarm: announce, then launch every replica of every spec with one shared table. */
  method RunProcessSwarm(specs: seq<ProcessSpec>) returns (r: SwarmRun)
    ensures r == SwarmSpec(specs)
  {
    if |specs| < 1 {
      return SwarmRun(NoSpecsMessage, [], None);
    }
    var used := new UsedNumbers();
    var launches: seq<Launch> := [];
    var count := 0;
    var si := 0;
    while si < |specs|
      invariant 0 <= si <= |specs|
      invariant LaunchSpecs(specs, si) == Progress(launches, used.numbers, None)
      invariant count == |launches|
      modifies used
    {
      var s := specs[si];
      var rep := 0;
      while rep < s.replicas
        invariant 0 <= rep <= Replicas(s)
        invariant LaunchReplicas(LaunchSpecs(specs, si), s, rep) == Progress(launches, used.numbers, None)
        invariant count == |launches|
        modifies used
      {
        ghost var before := Progress(launches, used.numbers, None);
        var launch, failure := LaunchReplica(s, count, used);
        LaunchOneShifts(before, s);
        if failure.Some? {
          SwarmFailurePersists(specs, si, s, rep + 1);
          return SwarmRun(FoundMessage(|specs|), launches, failure);
        }
        launches := launches + [launch];
        count := count + 1;
        rep := rep + 1;
      }
      si := si + 1;
    }
    return SwarmRun(FoundMessage(|specs|), launches, None);
  }

  /** A launch that panics ends the swarm there. */
  lemma SwarmFailurePersists(specs: seq<ProcessSpec>, si: nat, s: ProcessSpec, rep: nat)
    requires si < |specs| && s == specs[si] && rep <= Replicas(s)
    requires LaunchReplicas(LaunchSpecs(specs, si), s, rep).failure.Some?
    ensures LaunchSpecs(specs, |specs|) == LaunchReplicas(LaunchSpecs(specs, si), s, rep)
  {
    ReplicaFailurePersists(LaunchSpecs(specs, si), s, rep, Replicas(s));
    SpecFailurePersists(specs, si + 1, |specs|);
  }

  lemma {:induction false} ReplicaFailurePersists(p: Progress, s: ProcessSpec, j: nat, n: nat)
    requires j <= n
    requires LaunchReplicas(p, s, j).failure.Some?
    ensures LaunchReplicas(p, s, n) == LaunchReplicas(p, s, j)
  {
    if j < n {
      ReplicaFailurePersists(p, s, j, n - 1);
    }
  }

  lemma {:induction false} SpecFailurePersists(specs: seq<ProcessSpec>, j: nat, n: nat)
    requires j <= n <= |specs|
    requires LaunchSpecs(specs, j).failure.Some?
    ensures LaunchSpecs(specs, n) == LaunchSpecs(specs, j)
  {
    if j < n {
      SpecFailurePersists(specs, j, n - 1);
      ReplicaFailurePersists(LaunchSpecs(specs, n - 1), specs[n - 1], 0, Replicas(specs[n - 1]));
    }
  }

  /** Launch k is numbered k. */
  predicate Indexed(ls: seq<Launch>) {
    forall k :: 0 <= k < |ls| ==> ls[k].index == k
  }

  /** Argument q of launch l was written with a placeholder. */
  predicate IsDynamic(l: Launch, q: int) {
    0 <= q < |l.template| && q < |l.args| && l.template[q].unique.Some?
  }

  /** Every rewritten placeholder is the decimal text of a number in the table. */
  ghost predicate NumbersTaken(ls: seq<Launch>, used: set<int>) {
    forall k, q :: 0 <= k < |ls| && IsDynamic(ls[k], q) ==> exists n :: n in used && ls[k].args[q] == IntToString(n)
  }

  /** No two rewritten placeholders, in one launch or in two, have the same text. */
  ghost predicate DistinctDynamic(ls: seq<Launch>) {
    forall j, p, k, q :: 0 <= j < |ls| && 0 <= k < |ls| && (j != k || p != q) && IsDynamic(ls[j], p) && IsDynamic(ls[k], q)
      ==> ls[j].args[p] != ls[k].args[q]
  }

  ghost predicate Good(p: Progress) {
    Indexed(p.launches) && NumbersTaken(p.launches, p.used) && DistinctDynamic(p.launches)
  }

  /** A launch keeps the launches so far numbered, their numbers taken and their placeholders distinct. */
  lemma LaunchOneKeepsGood(p: Progress, s: ProcessSpec)
    requires Good(p)
    ensures Good(LaunchOne(p, s))
  {
    var r := LaunchOne(p, s);
    if p.failure.None? && |s.cmd| > 0 && Replace(s.cmd[1..], p.used).result.Replaced? {
      var t := s.cmd[1..];
      var a := Replace(t, p.used);
      var ls := p.launches;
      var l := Launch(|ls|, s.cmd[0].text, t, a.result.args, FromName(s.restart));
      assert r.launches == ls + [l];
      assert p.used <= a.used;
      forall q | IsDynamic(l, q)
        ensures exists n :: n in a.used && n !in p.used && l.args[q] == IntToString(n)
      {
        AssignsLeastFree(t, p.used, q);
      }
      forall k, q | 0 <= k < |r.launches| && IsDynamic(r.launches[k], q)
        ensures exists n :: n in a.used && r.launches[k].args[q] == IntToString(n)
      {
        if k < |ls| {
          assert r.launches[k] == ls[k];
        }
      }
      forall j, pj, k, q | 0 <= j < |r.launches| && 0 <= k < |r.launches| && (j != k || pj != q) &&
          IsDynamic(r.launches[j], pj) && IsDynamic(r.launches[k], q)
        ensures r.launches[j].args[pj] != r.launches[k].args[q]
      {
        if j == |ls| && k == |ls| {
          if pj < q {
            DistinctWithinCall(t, p.used, pj, q);
          } else {
            DistinctWithinCall(t, p.used, q, pj);
          }
        } else if j == |ls| || k == |ls| {
          OldAndNewDiffer(r.launches, |ls|, p.used, if j == |ls| then k else j, if j == |ls| then q else pj, if j == |ls| then pj else q);
        } else {
          assert r.launches[j] == ls[j] && r.launches[k] == ls[k];
        }
      }
    }
  }

  /** A placeholder taken before the table `used` and one taken outside it differ. */
  lemma OldAndNewDiffer(ls: seq<Launch>, last: nat, used: set<int>, k: nat, q: int, pl: int)
    requires last < |ls| && k < last && IsDynamic(ls[k], q) && IsDynamic(ls[last], pl)
    requires exists n :: n in used && ls[k].args[q] == IntToString(n)
    requires exists n :: n !in used && ls[last].args[pl] == IntToString(n)
    ensures ls[k].args[q] != ls[last].args[pl]
  {
    var n1 :| n1 in used && ls[k].args[q] == IntToString(n1);
    var n2 :| n2 !in used && ls[last].args[pl] == IntToString(n2);
    IntToStringInjective(n1, n2);
  }

  lemma {:induction false} ReplicasKeepGood(p: Progress, s: ProcessSpec, rep: nat)
    requires Good(p)
    ensures Good(LaunchReplicas(p, s, rep))
  {
    if rep > 0 {
      ReplicasKeepGood(p, s, rep - 1);
      LaunchOneKeepsGood(LaunchReplicas(p, s, rep - 1), s);
    }
  }

  lemma {:induction false} SpecsKeepGood(specs: seq<ProcessSpec>, n: nat)
    requires n <= |specs|
    ensures Good(LaunchSpecs(specs, n))
  {
    if n > 0 {
      SpecsKeepGood(specs, n - 1);
      ReplicasKeepGood(LaunchSpecs(specs, n - 1), specs[n - 1], Replicas(specs[n - 1]));
    }
  }

  /**
   * Whatever the specs, and whether or not the swarm panics part way: launch
   * k is given index k, and no two placeholders across all launches, which
   * share one table, are rewritten to the same number.
   */
  lemma SwarmIndexedAndDistinct(specs: seq<ProcessSpec>)
    ensures Indexed(SwarmSpec(specs).launches)
    ensures DistinctDynamic(SwarmSpec(specs).launches)
  {
    SpecsKeepGood(specs, |specs|);
  }

  /** Launch l is a replica of spec s. */
  predicate LaunchOf(l: Launch, s: ProcessSpec) {
    |s.cmd| > 0 && l.command == s.cmd[0].text && l.template == s.cmd[1..] && l.policy == FromName(s.restart)
  }

  /** Replicas that all launched add exactly `rep` launches of s after the earlier ones. */
  lemma {:induction false} ReplicasLayout(p: Progress, s: ProcessSpec, rep: nat)
    requires LaunchReplicas(p, s, rep).failure.None?
    ensures var r := LaunchReplicas(p, s, rep);
      && p.failure.None?
      && |r.launches| == |p.launches| + rep
      && r.launches[..|p.launches|] == p.launches
      && forall k :: |p.launches| <= k < |r.launches| ==> LaunchOf(r.launches[k], s)
  {
    if rep > 0 {
      var q := LaunchReplicas(p, s, rep - 1);
      assert q.failure.None?;
      ReplicasLayout(p, s, rep - 1);
      var r := LaunchOne(q, s);
      assert r.launches == q.launches + [r.launches[|q.launches|]];
      assert r.launches[..|p.launches|] == q.launches[..|p.launches|];
    }
  }

  /** A swarm prefix that did not panic launches the sum of its replica counts. */
  lemma {:induction false} SpecsCount(specs: seq<ProcessSpec>, n: nat)
    requires n <= |specs|
    requires LaunchSpecs(specs, n).failure.None?
    ensures |LaunchSpecs(specs, n).launches| == TotalReplicas(specs, n)
  {
    if n > 0 {
      ReplicasLayout(LaunchSpecs(specs, n - 1), specs[n - 1], Replicas(specs[n - 1]));
      SpecsCount(specs, n - 1);
    }
  }

  /** In such a prefix, launch k with TotalReplicas(specs, j) <= k < TotalReplicas(specs, j + 1) is a replica of spec j. */
  lemma {:induction false} SpecsLayoutAt(specs: seq<ProcessSpec>, n: nat, j: nat, k: nat)
    requires j < n <= |specs|
    requires LaunchSpecs(specs, n).failure.None?
    requires TotalReplicas(specs, j) <= k < TotalReplicas(specs, j) + Replicas(specs[j])
    ensures k < |LaunchSpecs(specs, n).launches| && LaunchOf(LaunchSpecs(specs, n).launches[k], specs[j])
  {
    var p := LaunchSpecs(specs, n - 1);
    ReplicasLayout(p, specs[n - 1], Replicas(specs[n - 1]));
    SpecsCount(specs, n - 1);
    if j < n - 1 {
      SpecsLayoutAt(specs, n - 1, j, k);
      var ls := LaunchSpecs(specs, n).launches;
      assert ls[k] == ls[..|p.launches|][k];
    }
  }

  /** The replicas of spec j come before those of any later spec. */
  lemma {:induction false} TotalBefore(specs: seq<ProcessSpec>, j: nat, n: nat)
    requires j < n <= |specs|
    ensures TotalReplicas(specs, j) + Replicas(specs[j]) <= TotalReplicas(specs, n)
  {
    if j < n - 1 {
      TotalBefore(specs, j, n - 1);
    }
  }

  /**
   * A swarm prefix that did not panic launches the sum of the replica counts,
   * spec by spec: the launches from TotalReplicas(specs, j) up to the next
   * spec's start are the replicas of spec j.
   */
  lemma SpecsLayout(specs: seq<ProcessSpec>, n: nat)
    requires n <= |specs|
    requires LaunchSpecs(specs, n).failure.None?
    ensures |LaunchSpecs(specs, n).launches| == TotalReplicas(specs, n)
    ensures forall j: nat :: j < n ==> TotalReplicas(specs, j) + Replicas(specs[j]) <= TotalReplicas(specs, n)
    ensures forall j: nat, k: nat :: j < n && TotalReplicas(specs, j) <= k < TotalReplicas(specs, j) + Replicas(specs[j]) ==>
      LaunchOf(LaunchSpecs(specs, n).launches[k], specs[j])
  {
    SpecsCount(specs, n);
    forall j: nat | j < n
      ensures TotalReplicas(specs, j) + Replicas(specs[j]) <= TotalReplicas(specs, n)
    {
      TotalBefore(specs, j, n);
    }
    var ls := LaunchSpecs(specs, n).launches;
    forall j: nat, k: nat | j < n && TotalReplicas(specs, j) <= k < TotalReplicas(specs, j) + Replicas(specs[j])
      ensures LaunchOf(ls[k], specs[j])
    {
      SpecsLayoutAt(specs, n, j, k);
    }
  }

  /** The whole swarm, when no launch panicked: Σ replicas launches, numbered 0.., in spec order. */
  lemma SwarmLayout(specs: seq<ProcessSpec>)
    requires SwarmSpec(specs).failure.None?
    ensures var ls := SwarmSpec(specs).launches;
      && |ls| == TotalReplicas(specs, |specs|)
      && Indexed(ls)
      && (forall j: nat :: j < |specs| ==> TotalReplicas(specs, j) + Replicas(specs[j]) <= |ls|)
      && forall j: nat, k: nat :: j < |specs| && TotalReplicas(specs, j) <= k < TotalReplicas(specs, j) + Replicas(specs[j]) ==>
           LaunchOf(ls[k], specs[j])
  {
    SwarmIndexedAndDistinct(specs);
    if |specs| > 0 {
      SpecsLayout(specs, |specs|);
      assert SwarmSpec(specs).launches == LaunchSpecs(specs, |specs|).launches;
    }
  }
}
