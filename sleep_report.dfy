/**
 * The behaviour the three "sleep reporter" programs share: a greeting, then for
 * each argument in order a parse, a "will sleep" notice, a sleep of |v| seconds
 * and a "did sleep" notice, both notices on the error stream when v < 0 and on
 * the output stream otherwise, and a farewell once every argument is done. An
 * argument that does not parse ends the run abnormally at once.
 *
 * A run is a trace of events. The variants differ only in their texts and in
 * how they number positions, so those are parameters (a `Format`) here, and the
 * modules NotAGameCpp, NotAGameFormat and NotAGameGolang instantiate them.
 */
module SleepReport {
  import opened Wrappers

  datatype Stream = Stdout | Stderr

  /** One observable step of a run: a line on a stream, a pause, or an abnormal end. */
  datatype Event = Out(line: string) | Err(line: string) | Sleep(seconds: nat) | Abort

  /** Writing one line to a stream. */
  function Emit(stream: Stream, line: string): Event {
    match stream
    case Stdout => Out(line)
    case Stderr => Err(line)
  }

  /** The stream the notices of a value go to. */
  function StreamFor(v: int): Stream {
    if v < 0 then Stderr else Stdout
  }

  function Abs(v: int): nat {
    if v < 0 then -v else v
  }

  /** A notice about the value v: on the error stream iff v is negative. */
  function Notice(v: int, line: string): (e: Event)
    ensures e.Err? <==> v < 0
    ensures e.Out? <==> v >= 0
    ensures e.line == line
  {
    Emit(StreamFor(v), line)
  }

  /** The text of a notice, from the 0-based argument index, the argument's text and its value. */
  type Format = (nat, string, int) -> string

  /** The index of the first argument that does not parse, or |args| when all parse. */
  function FirstUnparsable(args: seq<string>, parse: string -> Option<int>, from: nat): (f: nat)
    requires from <= |args|
    ensures from <= f <= |args|
    ensures f < |args| ==> parse(args[f]).None?
    ensures forall k :: from <= k < f ==> parse(args[k]).Some?
    decreases |args| - from
  {
    if from == |args| then from
    else if parse(args[from]).None? then from
    else FirstUnparsable(args, parse, from + 1)
  }

  /** The events of one argument whose text parsed to v. */
  function Iteration(k: nat, text: string, v: int, will: Format, did: Format): seq<Event> {
    [Notice(v, will(k, text, v)), Sleep(Abs(v)), Notice(v, did(k, text, v))]
  }

  /** The events of one argument: nothing if it does not parse. */
  function Attempt(k: nat, text: string, parsed: Option<int>, will: Format, did: Format): seq<Event> {
    match parsed
    case None => []
    case Some(v) => Iteration(k, text, v, will, did)
  }

  /** The events of the first n arguments (used only up to the first that does not parse). */
  function Iterations(args: seq<string>, parse: string -> Option<int>, will: Format, did: Format, n: nat): (r: seq<Event>)
    requires n <= |args|
    ensures |r| <= 3 * n && |r| % 3 == 0
    ensures Abort !in r
  {
    if n == 0 then []
    else Iterations(args, parse, will, did, n - 1) + Attempt(n - 1, args[n - 1], parse(args[n - 1]), will, did)
  }

  /** The whole trace of a run over the argument list `args`. */
  function Report(greeting: string, farewell: string, args: seq<string>, parse: string -> Option<int>,
                  will: Format, did: Format): seq<Event>
  {
    var f := FirstUnparsable(args, parse, 0);
    [Out(greeting)] + Iterations(args, parse, will, did, f) + (if f < |args| then [Abort] else [Out(farewell)])
  }

  /** One more argument that parses adds its three events, and the first failure lies further on. */
  lemma IterationsNext(args: seq<string>, parse: string -> Option<int>, will: Format, did: Format, n: nat)
    requires n < |args|
    requires parse(args[n]).Some?
    requires FirstUnparsable(args, parse, 0) >= n
    ensures Iterations(args, parse, will, did, n + 1)
         == Iterations(args, parse, will, did, n) + Iteration(n, args[n], parse(args[n]).value, will, did)
    ensures FirstUnparsable(args, parse, 0) >= n + 1
  {
  }

  /** A run in which every argument parses ends with the farewell. */
  lemma ReportCompletes(greeting: string, farewell: string, args: seq<string>, parse: string -> Option<int>,
                        will: Format, did: Format)
    requires FirstUnparsable(args, parse, 0) == |args|
    ensures Report(greeting, farewell, args, parse, will, did)
         == [Out(greeting)] + Iterations(args, parse, will, did, |args|) + [Out(farewell)]
  {
  }

  /** A run whose argument n is the first that does not parse ends with an abort after n iterations. */
  lemma ReportAborts(greeting: string, farewell: string, args: seq<string>, parse: string -> Option<int>,
                     will: Format, did: Format, n: nat)
    requires n < |args| && parse(args[n]).None?
    requires FirstUnparsable(args, parse, 0) >= n
    ensures Report(greeting, farewell, args, parse, will, did)
         == [Out(greeting)] + Iterations(args, parse, will, did, n) + [Abort]
  {
  }

  /** Each argument that parses adds three events. */
  lemma {:induction false} IterationsLength(args: seq<string>, parse: string -> Option<int>, will: Format, did: Format, n: nat)
    requires n <= |args|
    requires forall k :: 0 <= k < n ==> parse(args[k]).Some?
    ensures |Iterations(args, parse, will, did, n)| == 3 * n
  {
    if n > 0 {
      IterationsLength(args, parse, will, did, n - 1);
    }
  }

  /** Argument k, among the first n, which all parse, occupies positions 3k, 3k+1 and 3k+2. */
  lemma {:induction false} IterationAt(args: seq<string>, parse: string -> Option<int>, will: Format, did: Format,
                                       n: nat, k: nat)
    requires k < n <= |args|
    requires forall j :: 0 <= j < n ==> parse(args[j]).Some?
    ensures 3 * k + 2 < |Iterations(args, parse, will, did, n)|
    ensures var v := parse(args[k]).value;
      var its := Iterations(args, parse, will, did, n);
      its[3 * k] == Notice(v, will(k, args[k], v)) &&
      its[3 * k + 1] == Sleep(Abs(v)) &&
      its[3 * k + 2] == Notice(v, did(k, args[k], v))
  {
    IterationsLength(args, parse, will, did, n - 1);
    if k < n - 1 {
      IterationAt(args, parse, will, did, n - 1, k);
    }
  }

  /** Argument k occupies positions 3k, 3k+1 and 3k+2 of the iterations. */
  lemma IterationsAt(args: seq<string>, parse: string -> Option<int>, will: Format, did: Format, n: nat)
    requires n <= |args|
    requires forall k :: 0 <= k < n ==> parse(args[k]).Some?
    ensures |Iterations(args, parse, will, did, n)| == 3 * n
    ensures forall k :: 0 <= k < n ==>
      var v := parse(args[k]).value;
      var its := Iterations(args, parse, will, did, n);
      its[3 * k] == Notice(v, will(k, args[k], v)) &&
      its[3 * k + 1] == Sleep(Abs(v)) &&
      its[3 * k + 2] == Notice(v, did(k, args[k], v))
  {
    IterationsLength(args, parse, will, did, n);
    forall k | 0 <= k < n
      ensures var v := parse(args[k]).value;
        var its := Iterations(args, parse, will, did, n);
        its[3 * k] == Notice(v, will(k, args[k], v)) &&
        its[3 * k + 1] == Sleep(Abs(v)) &&
        its[3 * k + 2] == Notice(v, did(k, args[k], v))
    {
      IterationAt(args, parse, will, did, n, k);
    }
  }

  /** The ends of every run: the greeting first, then the farewell or an abort after three events per parsed argument. */
  lemma ReportEnds(greeting: string, farewell: string, args: seq<string>, parse: string -> Option<int>,
                   will: Format, did: Format)
    ensures var f := FirstUnparsable(args, parse, 0);
      var t := Report(greeting, farewell, args, parse, will, did);
      && |t| == 3 * f + 2
      && t[0] == Out(greeting)
      && t[3 * f + 1] == (if f < |args| then Abort else Out(farewell))
      && (f == |args| <==> forall k :: 0 <= k < |args| ==> parse(args[k]).Some?)
  {
    IterationsLength(args, parse, will, did, FirstUnparsable(args, parse, 0));
  }

  /** Argument k, before the first unparsable one, is reported at positions 3k+1, 3k+2 and 3k+3 of the run. */
  lemma ReportAt(greeting: string, farewell: string, args: seq<string>, parse: string -> Option<int>,
                 will: Format, did: Format, k: nat)
    requires k < FirstUnparsable(args, parse, 0)
    ensures 3 * k + 3 < |Report(greeting, farewell, args, parse, will, did)|
    ensures var v := parse(args[k]).value;
      var t := Report(greeting, farewell, args, parse, will, did);
      t[3 * k + 1] == Notice(v, will(k, args[k], v)) &&
      t[3 * k + 2] == Sleep(Abs(v)) &&
      t[3 * k + 3] == Notice(v, did(k, args[k], v))
  {
    var f := FirstUnparsable(args, parse, 0);
    IterationsLength(args, parse, will, did, f);
    IterationAt(args, parse, will, did, f, k);
    var its := Iterations(args, parse, will, did, f);
    var t := Report(greeting, farewell, args, parse, will, did);
    assert t == [Out(greeting)] + its + (if f < |args| then [Abort] else [Out(farewell)]);
    assert t[3 * k + 1] == its[3 * k] && t[3 * k + 2] == its[3 * k + 1] && t[3 * k + 3] == its[3 * k + 2];
  }

  /**
   * The layout of every run: the greeting first; for each argument k before the
   * first unparsable one f, its "will" notice, its sleep of |v| and its "did"
   * notice, both notices on the stream of v's sign; then the farewell if every
   * argument parsed, and otherwise an abort with nothing written for argument f.
   */
  lemma ReportLayout(greeting: string, farewell: string, args: seq<string>, parse: string -> Option<int>,
                     will: Format, did: Format)
    ensures var f := FirstUnparsable(args, parse, 0);
      var t := Report(greeting, farewell, args, parse, will, did);
      && |t| == 3 * f + 2
      && t[0] == Out(greeting)
      && (forall k :: 0 <= k < f ==>
            var v := parse(args[k]).value;
            t[3 * k + 1] == Notice(v, will(k, args[k], v)) &&
            t[3 * k + 2] == Sleep(Abs(v)) &&
            t[3 * k + 3] == Notice(v, did(k, args[k], v)))
      && t[3 * f + 1] == (if f < |args| then Abort else Out(farewell))
      && (f == |args| <==> forall k :: 0 <= k < |args| ==> parse(args[k]).Some?)
  {
    ReportEnds(greeting, farewell, args, parse, will, did);
    var f := FirstUnparsable(args, parse, 0);
    var t := Report(greeting, farewell, args, parse, will, did);
    forall k | 0 <= k < f
      ensures var v := parse(args[k]).value;
        t[3 * k + 1] == Notice(v, will(k, args[k], v)) &&
        t[3 * k + 2] == Sleep(Abs(v)) &&
        t[3 * k + 3] == Notice(v, did(k, args[k], v))
    {
      ReportAt(greeting, farewell, args, parse, will, did, k);
    }
  }

  /** No iteration writes `line` when no notice text can equal it. */
  lemma {:induction false} IterationsAvoid(args: seq<string>, parse: string -> Option<int>, will: Format, did: Format,
                                           n: nat, line: string)
    requires n <= |args|
    requires forall k: nat, text: string, v: int :: will(k, text, v) != line && did(k, text, v) != line
    ensures Out(line) !in Iterations(args, parse, will, did, n)
  {
    if n > 0 {
      IterationsAvoid(args, parse, will, did, n - 1, line);
    }
  }

  /**
   * When the farewell differs from the greeting and from every notice, it is
   * written iff every argument parses, and then it is the last event.
   */
  lemma ReportFarewell(greeting: string, farewell: string, args: seq<string>, parse: string -> Option<int>,
                       will: Format, did: Format)
    requires greeting != farewell
    requires forall k: nat, text: string, v: int :: will(k, text, v) != farewell && did(k, text, v) != farewell
    ensures var t := Report(greeting, farewell, args, parse, will, did);
      && (Out(farewell) in t <==> forall k :: 0 <= k < |args| ==> parse(args[k]).Some?)
      && (Out(farewell) in t ==> t[|t| - 1] == Out(farewell))
  {
    var f := FirstUnparsable(args, parse, 0);
    IterationsAvoid(args, parse, will, did, f, farewell);
    var t := Report(greeting, farewell, args, parse, will, did);
    var its := Iterations(args, parse, will, did, f);
    var tail := if f < |args| then [Abort] else [Out(farewell)];
    assert t == [Out(greeting)] + its + tail;
    assert Out(farewell) in t <==> Out(farewell) in tail;
  }
}
