/**
 * NotAGame/main.cpp: the C++ sleep reporter that streams the parsed value.
 * Positions are argv indices 1..argc-1, the total is argc-1, the stream is
 * picked once per argument (the `channel` pointer) and both notices put the
 * signed value right after "for", with no space.
 */
module NotAGameCpp {
  import opened Wrappers
  import opened Decimal
  import opened SleepReport

  const Greeting := "Hello from C++"
  const Farewell := "Good bye from C++"

  /** `i << " of " << argc - 1 << ": will sleep for" << secondsToSleep`: position first, value last. */
  function WillSleep(i: int, total: int, v: int): (line: string)
    ensures StartsWith(line, IntToString(i))
    ensures EndsWith(line, IntToString(v))
  {
    IntToString(i) + " of " + IntToString(total) + ": will sleep for" + IntToString(v)
  }

  /** The same line after the sleep, with "did". */
  function DidSleep(i: int, total: int, v: int): (line: string)
    ensures StartsWith(line, IntToString(i))
    ensures EndsWith(line, IntToString(v))
  {
    IntToString(i) + " of " + IntToString(total) + ": did sleep for" + IntToString(v)
  }

  /** argv without the program name. */
  function Arguments(argv: seq<string>): seq<string> {
    if |argv| == 0 then [] else argv[1..]
  }

  /** The k-th argument (0-based) is reported as position k+1. */
  function WillFormat(total: int): Format {
    (k: nat, text: string, v: int) => WillSleep(k + 1, total, v)
  }

  function DidFormat(total: int): Format {
    (k: nat, text: string, v: int) => DidSleep(k + 1, total, v)
  }

  /** The trace of `main(argc, argv)` with `std::stoi` given as `parse`. */
  function MainTrace(argv: seq<string>, parse: string -> Option<int>): seq<Event> {
    Report(Greeting, Farewell, Arguments(argv), parse, WillFormat(|argv| - 1), DidFormat(|argv| - 1))
  }

  /** The body of the loop for argv[i] once it parsed to secondsToSleep: notice, sleep, notice. */
  method ReportArgument(i: int, total: int, arg: string, secondsToSleep: int) returns (events: seq<Event>)
    requires i >= 1
    ensures events == Iteration(i - 1, arg, secondsToSleep, WillFormat(total), DidFormat(total))
  {
    var channel := if secondsToSleep < 0 then Stderr else Stdout;
    events := [Emit(channel, WillSleep(i, total, secondsToSleep))];
    events := events + [Sleep(Abs(secondsToSleep))];
    events := events + [Emit(channel, DidSleep(i, total, secondsToSleep))];
  }

  /**
   * The `for` loop over argv[1..]: the events written for the arguments up to
   * the first one std::stoi rejects, and whether the loop ended in that throw.
   */
  method ReportArguments(argv: seq<string>, parse: string -> Option<int>) returns (events: seq<Event>, aborted: bool)
    ensures var args := Arguments(argv);
      aborted <==> FirstUnparsable(args, parse, 0) < |args|
    ensures var args := Arguments(argv);
      events == Iterations(args, parse, WillFormat(|argv| - 1), DidFormat(|argv| - 1), FirstUnparsable(args, parse, 0))
  {
    ghost var args := Arguments(argv);
    events := [];
    var total := |argv| - 1;
    var i := 1;
    while i < |argv|
      invariant 1 <= i && (|argv| > 0 ==> i <= |argv|)
      invariant i - 1 <= |args|
      invariant FirstUnparsable(args, parse, 0) >= i - 1
      invariant events == Iterations(args, parse, WillFormat(total), DidFormat(total), i - 1)
    {
      var arg := argv[i];
      assert arg == args[i - 1];
      var parsed := parse(arg);
      if parsed.None? {
        // std::stoi throws and nothing catches it
        return events, true;
      }
      IterationsNext(args, parse, WillFormat(total), DidFormat(total), i - 1);
      var reported := ReportArgument(i, total, arg, parsed.value);
      events := events + reported;
      i := i + 1;
    }
    aborted := false;
  }

  /** `main`: the greeting, the loop, then the farewell unless the loop threw. */
  method RunMain(argv: seq<string>, parse: string -> Option<int>) returns (trace: seq<Event>)
    ensures trace == MainTrace(argv, parse)
  {
    trace := [Out(Greeting)];
    var events, aborted := ReportArguments(argv, parse);
    trace := trace + events;
    if aborted {
      trace := trace + [Abort];
    } else {
      trace := trace + [Out(Farewell)];
    }
  }

  /**
   * The run of main.cpp: greeting first; argument k (at argv[k+1]) reported as
   * "k+1 of argc-1" with its signed value, both notices on stderr iff the value
   * is negative, a sleep of its absolute value in between; the farewell last,
   * or an abort right after the last argument that parsed.
   */
  lemma MainLayout(argv: seq<string>, parse: string -> Option<int>)
    ensures var args := Arguments(argv);
      var f := FirstUnparsable(args, parse, 0);
      var t := MainTrace(argv, parse);
      && |args| == (if |argv| == 0 then 0 else |argv| - 1)
      && |t| == 3 * f + 2
      && t[0] == Out(Greeting)
      && (forall k :: 0 <= k < f ==>
            var v := parse(argv[k + 1]).value;
            t[3 * k + 1] == Notice(v, WillSleep(k + 1, |argv| - 1, v)) &&
            t[3 * k + 2] == Sleep(Abs(v)) &&
            t[3 * k + 3] == Notice(v, DidSleep(k + 1, |argv| - 1, v)))
      && t[3 * f + 1] == (if f < |args| then Abort else Out(Farewell))
  {
    var args := Arguments(argv);
    ReportEnds(Greeting, Farewell, args, parse, WillFormat(|argv| - 1), DidFormat(|argv| - 1));
    var f := FirstUnparsable(args, parse, 0);
    var t := MainTrace(argv, parse);
    forall k | 0 <= k < f
      ensures var v := parse(argv[k + 1]).value;
        t[3 * k + 1] == Notice(v, WillSleep(k + 1, |argv| - 1, v)) &&
        t[3 * k + 2] == Sleep(Abs(v)) &&
        t[3 * k + 3] == Notice(v, DidSleep(k + 1, |argv| - 1, v))
    {
      ReportAt(Greeting, Farewell, args, parse, WillFormat(|argv| - 1), DidFormat(|argv| - 1), k);
      assert args[k] == argv[k + 1];
    }
  }

  /** Notice lines start with the position's digits, so none of them is the farewell. */
  lemma NoticeIsNotFarewell(i: int, total: int, v: int)
    ensures WillSleep(i, total, v) != Farewell && DidSleep(i, total, v) != Farewell
  {
    assert WillSleep(i, total, v)[0] == IntToString(i)[0];
    assert DidSleep(i, total, v)[0] == IntToString(i)[0];
    assert Farewell[0] == 'G';
  }

  /** No notice of any position, total or value is the farewell line. */
  lemma FormatsAvoidFarewell(total: int)
    ensures var will, did := WillFormat(total), DidFormat(total);
      forall k: nat, text: string, v: int :: will(k, text, v) != Farewell && did(k, text, v) != Farewell
  {
    var will, did := WillFormat(total), DidFormat(total);
    forall k: nat, text: string, v: int
      ensures will(k, text, v) != Farewell && did(k, text, v) != Farewell
    {
      NoticeIsNotFarewell(k + 1, total, v);
    }
  }

  /** The farewell is written, and written last, iff every argument parses. */
  lemma FarewellIffAllParse(argv: seq<string>, parse: string -> Option<int>)
    ensures var t := MainTrace(argv, parse);
      (Out(Farewell) in t <==> forall k :: 1 <= k < |argv| ==> parse(argv[k]).Some?) &&
      (Out(Farewell) in t ==> t[|t| - 1] == Out(Farewell))
  {
    var args := Arguments(argv);
    FormatsAvoidFarewell(|argv| - 1);
    ReportFarewell(Greeting, Farewell, args, parse, WillFormat(|argv| - 1), DidFormat(|argv| - 1));
    assert forall k :: 0 <= k < |args| ==> args[k] == argv[k + 1];
  }

  /** With no arguments the output is the greeting and then the farewell. */
  lemma NoArguments(parse: string -> Option<int>)
    ensures MainTrace(["NotAGame"], parse) == [Out(Greeting), Out(Farewell)]
  {
  }

  /** In `p + d + n`, what precedes `n` ends with the last three characters of `d`. */
  lemma Ending(p: string, d: string, n: string)
    requires |d| >= 3
    ensures var line := p + d + n;
      var head := line[..|line| - |n|];
      && |head| == |p| + |d|
      && head[|head| - 3..] == d[|d| - 3..]
      && line[|head|..] == n
  {
    var line := p + d + n;
    assert line[..|line| - |n|] == p + d;
  }

  /** What follows "for" in a notice reads back as the signed value itself. */
  lemma NoticeReportsSignedValue(i: int, total: int, v: int)
    ensures var line := WillSleep(i, total, v);
      var head := line[..|line| - |IntToString(v)|];
      && head[|head| - 3..] == "for"
      && ParseInt(line[|head|..]) == Some(v)
    ensures var line := DidSleep(i, total, v);
      var head := line[..|line| - |IntToString(v)|];
      && head[|head| - 3..] == "for"
      && ParseInt(line[|head|..]) == Some(v)
  {
    IntToStringRoundTrip(v);
    var pre := IntToString(i) + " of " + IntToString(total);
    Ending(pre, ": will sleep for", IntToString(v));
    Ending(pre, ": did sleep for", IntToString(v));
    assert ": will sleep for"[13..] == "for";
    assert ": did sleep for"[12..] == "for";
  }
}
