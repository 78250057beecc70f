/**
 * NotAGame/NotAGame/NotAGame.cpp: the C++ sleep reporter built on std::format.
 * Each notice quotes the raw argument text argv[i] followed by " seconds"; the
 * "will" message is built before std::stoi runs, and the stream is chosen by a
 * separate sign test for each of the two writes.
 */
module NotAGameFormat {
  import opened Wrappers
  import opened Decimal
  import opened SleepReport

  const Greeting := "Hello from C++"
  const Farewell := "Good bye from C++"

  /** `std::format("{} of {}: will sleep for {} seconds", i, argc - 1, argv[i])`. */
  function WillSleep(i: int, total: int, arg: string): (line: string)
    ensures StartsWith(line, IntToString(i))
    ensures EndsWith(line, arg + " seconds")
  {
    IntToString(i) + " of " + IntToString(total) + ": will sleep for " + arg + " seconds"
  }

  /** The same line after the sleep, with "did". */
  function DidSleep(i: int, total: int, arg: string): (line: string)
    ensures StartsWith(line, IntToString(i))
    ensures EndsWith(line, arg + " seconds")
  {
    IntToString(i) + " of " + IntToString(total) + ": did sleep for " + arg + " seconds"
  }

  /** argv without the program name. */
  function Arguments(argv: seq<string>): seq<string> {
    if |argv| == 0 then [] else argv[1..]
  }

  /** The k-th argument (0-based) is reported as position k+1, with its own text. */
  function WillFormat(total: int): Format {
    (k: nat, text: string, v: int) => WillSleep(k + 1, total, text)
  }

  function DidFormat(total: int): Format {
    (k: nat, text: string, v: int) => DidSleep(k + 1, total, text)
  }

  /** The trace of `main(argc, argv)` with `std::stoi` given as `parse`. */
  function MainTrace(argv: seq<string>, parse: string -> Option<int>): seq<Event> {
    Report(Greeting, Farewell, Arguments(argv), parse, WillFormat(|argv| - 1), DidFormat(|argv| - 1))
  }

  /**
   * The body of the loop for argv[i] = arg: the "will" message is formatted,
   * then arg is parsed (None: std::stoi throws, and nothing has been written
   * for this argument, and `parsed` is false), then the two writes with the
   * sleep between them, each write testing the sign afresh.
   */
  method ReportArgument(i: int, total: int, arg: string, parse: string -> Option<int>)
      returns (events: seq<Event>, parsed: bool)
    requires i >= 1
    ensures parsed <==> parse(arg).Some?
    ensures events == Attempt(i - 1, arg, parse(arg), WillFormat(total), DidFormat(total))
  {
    var msg := WillSleep(i, total, arg);
    var stoi := parse(arg);
    if stoi.None? {
      return [], false;
    }
    var secondsToSleep := stoi.value;
    events := [Notice(secondsToSleep, msg)];
    events := events + [Sleep(Abs(secondsToSleep))];
    msg := DidSleep(i, total, arg);
    events := events + [Notice(secondsToSleep, msg)];
    parsed := true;
  }

  /**
   * The `for` loop over argv[1..]: the events written for the arguments up to
   * the first one std::stoi rejects, and whether the loop ended in that throw.
   */
  method ReportArguments(argv: seq<string>, parse: string -> Option<int>) returns (events: seq<Event>, aborted: bool)
    ensures var args := Arguments(argv);
      aborted <==> FirstUnparsable(args, parse, 0) < |args|
    ensures var args := Arguments(argv);
      events == Iterations(args, parse, WillFormat(|argv| - 1), DidFormat(|argv| - 1), FirstUnparsable(args, parse, 0))
  {
    ghost var args := Arguments(argv);
    events := [];
    var total := |argv| - 1;
    var i := 1;
    while i < |argv|
      invariant 1 <= i && (|argv| > 0 ==> i <= |argv|)
      invariant i - 1 <= |args|
      invariant FirstUnparsable(args, parse, 0) >= i - 1
      invariant events == Iterations(args, parse, WillFormat(total), DidFormat(total), i - 1)
    {
      var arg := argv[i];
      assert arg == args[i - 1];
      var reported, parsed := ReportArgument(i, total, arg, parse);
      if !parsed {
        // std::stoi threw after the message was built, before it was written
        return events, true;
      }
      IterationsNext(args, parse, WillFormat(total), DidFormat(total), i - 1);
      events := events + reported;
      i := i + 1;
    }
    aborted := false;
  }

  /** `main`: the greeting, the loop, then the farewell unless the loop threw. */
  method RunMain(argv: seq<string>, parse: string -> Option<int>) returns (trace: seq<Event>)
    ensures trace == MainTrace(argv, parse)
  {
    trace := [Out(Greeting)];
    var events, aborted := ReportArguments(argv, parse);
    trace := trace + events;
    if aborted {
      trace := trace + [Abort];
    } else {
      trace := trace + [Out(Farewell)];
    }
  }

  /**
   * The run of NotAGame.cpp: greeting first; argument k (at argv[k+1]) reported
   * as "k+1 of argc-1" quoting its own text, both notices on stderr iff its value
   * is negative, a sleep of the absolute value in between; the farewell last,
   * or an abort right after the last argument that parsed.
   */
  lemma MainLayout(argv: seq<string>, parse: string -> Option<int>)
    ensures var args := Arguments(argv);
      var f := FirstUnparsable(args, parse, 0);
      var t := MainTrace(argv, parse);
      && |t| == 3 * f + 2
      && t[0] == Out(Greeting)
      && (forall k :: 0 <= k < f ==>
            var v := parse(argv[k + 1]).value;
            t[3 * k + 1] == Notice(v, WillSleep(k + 1, |argv| - 1, argv[k + 1])) &&
            t[3 * k + 2] == Sleep(Abs(v)) &&
            t[3 * k + 3] == Notice(v, DidSleep(k + 1, |argv| - 1, argv[k + 1])))
      && t[3 * f + 1] == (if f < |args| then Abort else Out(Farewell))
  {
    var args := Arguments(argv);
    ReportEnds(Greeting, Farewell, args, parse, WillFormat(|argv| - 1), DidFormat(|argv| - 1));
    var f := FirstUnparsable(args, parse, 0);
    var t := MainTrace(argv, parse);
    forall k | 0 <= k < f
      ensures var v := parse(argv[k + 1]).value;
        t[3 * k + 1] == Notice(v, WillSleep(k + 1, |argv| - 1, argv[k + 1])) &&
        t[3 * k + 2] == Sleep(Abs(v)) &&
        t[3 * k + 3] == Notice(v, DidSleep(k + 1, |argv| - 1, argv[k + 1]))
    {
      ReportAt(Greeting, Farewell, args, parse, WillFormat(|argv| - 1), DidFormat(|argv| - 1), k);
      assert args[k] == argv[k + 1];
    }
  }

  /** No notice of any position, total or argument text is the farewell line. */
  lemma FormatsAvoidFarewell(total: int)
    ensures var will, did := WillFormat(total), DidFormat(total);
      forall k: nat, text: string, v: int :: will(k, text, v) != Farewell && did(k, text, v) != Farewell
  {
    var will, did := WillFormat(total), DidFormat(total);
    forall k: nat, text: string, v: int
      ensures will(k, text, v) != Farewell && did(k, text, v) != Farewell
    {
      assert WillSleep(k + 1, total, text)[0] == IntToString(k + 1)[0];
      assert DidSleep(k + 1, total, text)[0] == IntToString(k + 1)[0];
      assert Farewell[0] == 'G';
    }
  }

  /** The farewell is written, and written last, iff every argument parses. */
  lemma FarewellIffAllParse(argv: seq<string>, parse: string -> Option<int>)
    ensures var t := MainTrace(argv, parse);
      (Out(Farewell) in t <==> forall k :: 1 <= k < |argv| ==> parse(argv[k]).Some?) &&
      (Out(Farewell) in t ==> t[|t| - 1] == Out(Farewell))
  {
    var args := Arguments(argv);
    FormatsAvoidFarewell(|argv| - 1);
    ReportFarewell(Greeting, Farewell, args, parse, WillFormat(|argv| - 1), DidFormat(|argv| - 1));
    assert forall k :: 0 <= k < |args| ==> args[k] == argv[k + 1];
  }

  /**
   * The notices carry the argument's text, not its value: two arguments that
   * parse to the same number but are spelled differently ("7", "07", "+7")
   * get different notices, and the text sits between "for " and " seconds".
   */
  lemma NoticeQuotesRawText(i: int, total: int, a: string, b: string)
    ensures WillSleep(i, total, a) == WillSleep(i, total, b) <==> a == b
    ensures DidSleep(i, total, a) == DidSleep(i, total, b) <==> a == b
    ensures var line, head := WillSleep(i, total, a), IntToString(i) + " of " + IntToString(total) + ": will sleep for ";
      line[|head|..|line| - 8] == a && line[|line| - 8..] == " seconds"
  {
    var pre := IntToString(i) + " of " + IntToString(total);
    var wa, wb := WillSleep(i, total, a), WillSleep(i, total, b);
    var headW := pre + ": will sleep for ";
    assert wa == headW + a + " seconds";
    assert wb == headW + b + " seconds";
    if wa == wb {
      assert |a| == |b|;
      assert a == wa[|headW|..|headW| + |a|];
    }
    var da, db := DidSleep(i, total, a), DidSleep(i, total, b);
    var headD := pre + ": did sleep for ";
    assert da == headD + a + " seconds";
    assert db == headD + b + " seconds";
    if da == db {
      assert |a| == |b|;
      assert a == da[|headD|..|headD| + |a|];
    }
  }
}
