/**
 * NotAGameGolang/main.go: the Go sleep reporter. It ranges over flag.Args()
 * with a 0-based index, reports the total as len(args), computes the absolute
 * value by hand before checking strconv.Atoi's error, panics on that error,
 * and reports the signed value n in both notices.
 */
module NotAGameGolang {
  import opened Wrappers
  import opened Decimal
  import opened SleepReport

  const Greeting := "Hello from golang"
  const Farewell := "Good bye from golang"

  /** fmt.Sprintf("%d of %d: will sleep for %d seconds...", i, total, n) */
  function WillSleep(i: int, total: int, n: int): (line: string)
    ensures StartsWith(line, IntToString(i))
    ensures EndsWith(line, IntToString(n) + " seconds...")
  {
    Affixes(IntToString(i), " of ", IntToString(total), ": will sleep for ", IntToString(n), " seconds...");
    IntToString(i) + " of " + IntToString(total) + ": will sleep for " + IntToString(n) + " seconds..."
  }

  /** fmt.Sprintf("%d of %d: did sleep for %d seconds", i, total, n) */
  function DidSleep(i: int, total: int, n: int): (line: string)
    ensures StartsWith(line, IntToString(i))
    ensures EndsWith(line, IntToString(n) + " seconds")
  {
    Affixes(IntToString(i), " of ", IntToString(total), ": did sleep for ", IntToString(n), " seconds");
    IntToString(i) + " of " + IntToString(total) + ": did sleep for " + IntToString(n) + " seconds"
  }

  /** The k-th argument is reported as position k. */
  function WillFormat(total: int): Format {
    (k: nat, text: string, v: int) => WillSleep(k, total, v)
  }

  function DidFormat(total: int): Format {
    (k: nat, text: string, v: int) => DidSleep(k, total, v)
  }

  /** The trace of `main` over `args := flag.Args()`, with strconv.Atoi given as `atoi`. */
  function MainTrace(args: seq<string>, atoi: string -> Option<int>): seq<Event> {
    Report(Greeting, Farewell, args, atoi, WillFormat(|args|), DidFormat(|args|))
  }

  /**
   * The body of the range loop for (i, arg): Atoi, the hand-made absolute value
   * (computed from Atoi's 0 even when it failed), the panic on the error, then
   * the two notices with the sleep between them.
   */
  method ReportArgument(i: nat, total: int, arg: string, atoi: string -> Option<int>)
      returns (events: seq<Event>, parsed: bool)
    ensures parsed <==> atoi(arg).Some?
    ensures events == Attempt(i, arg, atoi(arg), WillFormat(total), DidFormat(total))
  {
    var result := atoi(arg);
    var n := if result.Some? then result.value else 0;
    var secondsToSleep := n;
    if secondsToSleep < 0 {
      secondsToSleep := secondsToSleep * -1;
    }
    if result.None? {
      return [], false;
    }
    parsed := true;
    var msgBefore := WillSleep(i, total, n);
    events := [Notice(n, msgBefore)];
    events := events + [Sleep(secondsToSleep)];
    var msgAfter := DidSleep(i, total, n);
    events := events + [Notice(n, msgAfter)];
  }

  /**
   * The range loop: the events written for the arguments, up to the first one
   * Atoi rejects, and whether the loop ended in that panic.
   */
  method ReportArguments(args: seq<string>, atoi: string -> Option<int>) returns (events: seq<Event>, panicked: bool)
    ensures panicked <==> FirstUnparsable(args, atoi, 0) < |args|
    ensures events == Iterations(args, atoi, WillFormat(|args|), DidFormat(|args|), FirstUnparsable(args, atoi, 0))
  {
    events := [];
    var total := |args|;
    var i := 0;
    while i < |args|
      invariant 0 <= i <= |args|
      invariant FirstUnparsable(args, atoi, 0) >= i
      invariant events == Iterations(args, atoi, WillFormat(total), DidFormat(total), i)
    {
      var reported, parsed := ReportArgument(i, total, args[i], atoi);
      if !parsed {
        // panic(err): nothing was written for this argument
        return events, true;
      }
      IterationsNext(args, atoi, WillFormat(total), DidFormat(total), i);
      events := events + reported;
      i := i + 1;
    }
    panicked := false;
  }

  /** The program's `main` after flag.Parse: greeting, the range loop, then the farewell unless it panicked. */
  method RunMain(args: seq<string>, atoi: string -> Option<int>) returns (trace: seq<Event>)
    ensures trace == MainTrace(args, atoi)
  {
    trace := [Out(Greeting)];
    var events, panicked := ReportArguments(args, atoi);
    trace := trace + events;
    if panicked {
      trace := trace + [Abort];
    } else {
      trace := trace + [Out(Farewell)];
    }
  }

  /**
   * The run of the Go program: greeting first; argument k reported as
   * "k of len(args)" with its signed value, both notices on stderr iff it is
   * negative, a sleep of its absolute value in between; the farewell last, or
   * a panic right after the last argument that parsed.
   */
  lemma MainLayout(args: seq<string>, atoi: string -> Option<int>)
    ensures var f := FirstUnparsable(args, atoi, 0);
      var t := MainTrace(args, atoi);
      && |t| == 3 * f + 2
      && t[0] == Out(Greeting)
      && (forall k :: 0 <= k < f ==>
            var n := atoi(args[k]).value;
            t[3 * k + 1] == Notice(n, WillSleep(k, |args|, n)) &&
            t[3 * k + 2] == Sleep(Abs(n)) &&
            t[3 * k + 3] == Notice(n, DidSleep(k, |args|, n)))
      && t[3 * f + 1] == (if f < |args| then Abort else Out(Farewell))
  {
    ReportLayout(Greeting, Farewell, args, atoi, WillFormat(|args|), DidFormat(|args|));
  }

  /** No notice of any position, total or value is the farewell line. */
  lemma FormatsAvoidFarewell(total: int)
    ensures var will, did := WillFormat(total), DidFormat(total);
      forall k: nat, text: string, v: int :: will(k, text, v) != Farewell && did(k, text, v) != Farewell
  {
    var will, did := WillFormat(total), DidFormat(total);
    forall k: nat, text: string, v: int
      ensures will(k, text, v) != Farewell && did(k, text, v) != Farewell
    {
      assert WillSleep(k, total, v)[0] == IntToString(k)[0];
      assert DidSleep(k, total, v)[0] == IntToString(k)[0];
      assert Farewell[0] == 'G';
    }
  }

  /** The farewell is written, and written last, iff every argument parses. */
  lemma FarewellIffAllParse(args: seq<string>, atoi: string -> Option<int>)
    ensures var t := MainTrace(args, atoi);
      (Out(Farewell) in t <==> forall k :: 0 <= k < |args| ==> atoi(args[k]).Some?) &&
      (Out(Farewell) in t ==> t[|t| - 1] == Out(Farewell))
  {
    FormatsAvoidFarewell(|args|);
    ReportFarewell(Greeting, Farewell, args, atoi, WillFormat(|args|), DidFormat(|args|));
  }

  /** `a + b + c + d + n + e` begins with `a` and ends with `n + e`. */
  lemma Affixes(a: string, b: string, c: string, d: string, n: string, e: string)
    ensures StartsWith(a + b + c + d + n + e, a)
    ensures EndsWith(a + b + c + d + n + e, n + e)
  {
    var line := a + b + c + d + n + e;
    assert line == a + (b + c + d + n + e);
    assert line == (a + b + c + d) + (n + e);
  }

  /**
   * In `a + b + c + d + n + e`, `a` is the prefix, `n` is what stands right
   * before `e`, and the last four characters of `d` stand right before `n`.
   */
  lemma Framed(a: string, b: string, c: string, d: string, n: string, e: string)
    requires |d| >= 4
    ensures var line := a + b + c + d + n + e;
      var end := |line| - |e|;
      && line[..|a|] == a
      && line[end - |n| - 4..end - |n|] == d[|d| - 4..]
      && line[end - |n|..end] == n
  {
    var line := a + b + c + d + n + e;
    var end := |line| - |e|;
    assert line == a + (b + c + d) + n + e;
    assert line[end - |n| - 4..end - |n|] == (a + b + c + d)[|a + b + c + d| - 4..];
  }

  /**
   * The number between "for " and " seconds..." reads back as the signed n, and
   * the number in front of " of " reads back as the 0-based index i.
   */
  lemma WillReportsIndexAndSignedValue(i: nat, total: int, n: int)
    ensures var line, d := WillSleep(i, total, n), IntToString(n);
      var end := |line| - |" seconds..."|;
      && line[end - |d| - 4..end - |d|] == "for "
      && ParseInt(line[end - |d|..end]) == Some(n)
      && ParseInt(line[..|IntToString(i)|]) == Some(i)
  {
    IntToStringRoundTrip(n);
    IntToStringRoundTrip(i);
    Framed(IntToString(i), " of ", IntToString(total), ": will sleep for ", IntToString(n), " seconds...");
    assert ": will sleep for "[13..] == "for ";
  }

  /** The same for the notice written after the sleep. */
  lemma DidReportsIndexAndSignedValue(i: nat, total: int, n: int)
    ensures var line, d := DidSleep(i, total, n), IntToString(n);
      var end := |line| - |" seconds"|;
      && line[end - |d| - 4..end - |d|] == "for "
      && ParseInt(line[end - |d|..end]) == Some(n)
      && ParseInt(line[..|IntToString(i)|]) == Some(i)
  {
    IntToStringRoundTrip(n);
    IntToStringRoundTrip(i);
    Framed(IntToString(i), " of ", IntToString(total), ": did sleep for ", IntToString(n), " seconds");
    assert ": did sleep for "[12..] == "for ";
  }
}
