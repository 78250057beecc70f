/**
 * rexprint/rexprint.go: the colour palette and its shuffle, and the ANSI
 * colouring of the lines each process prints. Println's output is returned
 * as a string; rand.Intn's draws are given as a sequence.
 */
module RexPrint {
  import opened Wrappers
  import opened Decimal

  /** The twelve foreground codes, in the order they are listed. */
  const Palette: seq<int> := [31, 32, 33, 34, 35, 36, 92, 93, 94, 95, 96, 97]

  const DimCode := 37
  const ErrCode := 41
  const OutCode := 42

  const Escape := "\U{1B}["
  const Reset := "\U{1B}[0m"

  /** Exchange the elements at i and j. */
  function SwapAt(s: seq<int>, i: nat, j: nat): (r: seq<int>)
    requires i < |s| && j < |s|
    ensures |r| == |s|
  {
    s[i := s[j]][j := s[i]]
  }

  lemma SwapPermutes(s: seq<int>, i: nat, j: nat)
    requires i < |s| && j < |s|
    ensures multiset(SwapAt(s, i, j)) == multiset(s)
  {
  }

  /** The draws rand.Intn(i + 1) can make: draw i lies in [0, i]. */
  predicate ValidDraws(draws: seq<nat>) {
    forall i :: 0 <= i < |draws| ==> draws[i] <= i
  }

  /** The first n turns of the shuffle: turn i swaps elements i and draws[i]. */
  function Shuffled(s: seq<int>, draws: seq<nat>, n: nat): (r: seq<int>)
    requires n <= |s| && n <= |draws| && ValidDraws(draws)
    ensures |r| == |s|
  {
    if n == 0 then s else SwapAt(Shuffled(s, draws, n - 1), n - 1, draws[n - 1])
  }

  /** Whatever rand.Intn draws, the shuffle is a permutation. */
  lemma {:induction false} ShuffledPermutes(s: seq<int>, draws: seq<nat>, n: nat)
    requires n <= |s| && n <= |draws| && ValidDraws(draws)
    ensures multiset(Shuffled(s, draws, n)) == multiset(s)
  {
    if n > 0 {
      ShuffledPermutes(s, draws, n - 1);
      StepPermutes(s, Shuffled(s, draws, n - 1), n - 1, draws[n - 1]);
    }
  }

  lemma StepPermutes(s: seq<int>, prev: seq<int>, i: nat, j: nat)
    requires i < |prev| && j < |prev| && multiset(prev) == multiset(s)
    ensures multiset(SwapAt(prev, i, j)) == multiset(s)
  {
    SwapPermutes(prev, i, j);
  }

  /** The `for i := range colors` loop, in place. */
  method Shuffle(colors: array<int>, draws: seq<nat>)
    requires |draws| == colors.Length && ValidDraws(draws)
    modifies colors
    ensures colors[..] == Shuffled(old(colors[..]), draws, colors.Length)
  {
    ghost var s := colors[..];
    var i := 0;
    while i < colors.Length
      invariant 0 <= i <= colors.Length
      invariant colors[..] == Shuffled(s, draws, i)
    {
      var j := draws[i];
      ghost var before := colors[..];
      colors[i], colors[j] := colors[j], colors[i];
      assert colors[..] == SwapAt(before, i, j);
      i := i + 1;
    }
  }

  /** GetRandomColors: the palette, shuffled; exactly the twelve codes, each once. */
  method GetRandomColors(draws: seq<nat>) returns (colors: seq<int>)
    requires |draws| == |Palette| && ValidDraws(draws)
    ensures colors == Shuffled(Palette, draws, |Palette|)
    ensures |colors| == 12 && multiset(colors) == multiset(Palette)
  {
    var a := new int[12];
    var k := 0;
    while k < 12
      invariant 0 <= k <= 12
      invariant a[..k] == Palette[..k]
    {
      a[k] := Palette[k];
      k := k + 1;
    }
    assert a[..] == Palette;
    Shuffle(a, draws);
    colors := a[..];
    ShuffledPermutes(Palette, draws, |Palette|);
  }

  /** getColored: "\x1b[<code>m<text>\x1b[0m", the code's escape, then the text, then the reset. */
  function Colored(color: int, text: string): (s: string)
    ensures StartsWith(s, Escape + IntToString(color) + "m")
    ensures EndsWith(s, text + Reset)
  {
    var line := Escape + IntToString(color) + "m" + text + Reset;
    assert line == (Escape + IntToString(color) + "m") + (text + Reset);
    line
  }

  /** Dim colours with code 37. */
  function Dim(text: string): (s: string)
    ensures Uncolored(s) == Some((DimCode, text))
  {
    UncoloredRoundTrip(DimCode, text);
    Colored(DimCode, text)
  }

  /** ErrColor colours with code 41. */
  function ErrColor(text: string): (s: string)
    ensures Uncolored(s) == Some((ErrCode, text))
  {
    UncoloredRoundTrip(ErrCode, text);
    Colored(ErrCode, text)
  }

  /** OutColor colours with code 42. */
  function OutColor(text: string): (s: string)
    ensures Uncolored(s) == Some((OutCode, text))
  {
    UncoloredRoundTrip(OutCode, text);
    Colored(OutCode, text)
  }

  /** The position of the first 'm' at or after `from`, or |s|. */
  function FindM(s: string, from: nat): (p: nat)
    requires from <= |s|
    ensures from <= p <= |s|
    ensures p < |s| ==> s[p] == 'm'
    ensures forall k :: from <= k < p ==> s[k] != 'm'
    decreases |s| - from
  {
    if from == |s| || s[from] == 'm' then from else FindM(s, from + 1)
  }

  /** Reads a coloured text back: its code and the text between the code and the reset. */
  function Uncolored(s: string): Option<(int, string)> {
    if |s| < |Escape| || s[..|Escape|] != Escape then None
    else
      var m := FindM(s, |Escape|);
      if m + 1 + |Reset| > |s| || s[|s| - |Reset|..] != Reset then None
      else match ParseInt(s[|Escape|..m])
        case None => None
        case Some(c) => Some((c, s[m + 1..|s| - |Reset|]))
  }

  /** The code and the text come back out of the coloured text. */
  lemma UncoloredRoundTrip(color: int, text: string)
    ensures Uncolored(Colored(color, text)) == Some((color, text))
  {
    var d := IntToString(color);
    var s := Colored(color, text);
    assert s == Escape + (d + "m" + text + Reset);
    assert s[..|Escape|] == Escape;
    assert forall k :: |Escape| <= k < |Escape| + |d| ==> s[k] == d[k - |Escape|];
    assert s[|Escape| + |d|] == 'm';
    assert FindM(s, |Escape|) == |Escape| + |d|;
    assert s[|Escape|..|Escape| + |d|] == d;
    assert s[|s| - |Reset|..] == Reset;
    assert s[|Escape| + |d| + 1..|s| - |Reset|] == text;
    IntToStringRoundTrip(color);
  }

  /** Go's `%`: the remainder of division truncated toward zero, which takes the sign of a. */
  function GoRem(a: int, b: int): (r: int)
    requires b != 0
    ensures a >= 0 ==> 0 <= r < (if b < 0 then -b else b)
    ensures a < 0 ==> -(if b < 0 then -b else b) < r <= 0
  {
    var m := if b < 0 then -b else b;
    if a >= 0 then a % m else -((-a) % m)
  }

  /** Go's `/` on int: truncated toward zero. */
  function GoQuot(a: int, b: int): int
    requires b != 0
  {
    var m := if b < 0 then -b else b;
    var q := if a >= 0 then a / m else -((-a) / m);
    if b < 0 then -q else q
  }

  /** The quotient and the remainder recompose the dividend, as Go's spec requires of them. */
  lemma GoDivision(a: int, b: int)
    requires b != 0
    ensures GoQuot(a, b) * b + GoRem(a, b) == a
  {
  }

  /** Println's operands after the first: each one preceded by a space. */
  function Spaced(parts: seq<string>): string {
    if |parts| == 0 then "" else Spaced(parts[..|parts| - 1]) + " " + parts[|parts| - 1]
  }

  /**
   * PrintLnColor: the line written, or None where Go panics: an empty palette
   * divides by zero, and a negative i can give a negative colour index.
   */
  function PrintLnColor(id: string, colors: seq<int>, i: int, msg: seq<string>): (line: Option<string>)
    ensures line.None? <==> |colors| == 0 || (i < 0 && (-i) % |colors| != 0)
  {
    if |colors| == 0 then None
    else
      var colorIndex := GoRem(i, |colors|);
      if colorIndex < 0 then None
      else Some(Colored(colors[colorIndex], "[" + id + "]") + Spaced(msg) + "\n")
  }

  /**
   * For a non-negative index and a non-empty palette the line is written,
   * starting with "[id]" coloured with colors[i mod len(colors)], followed by
   * the messages in order, each after a space.
   */
  lemma PrintedLine(id: string, colors: seq<int>, i: int, msg: seq<string>)
    requires |colors| > 0 && i >= 0
    ensures var line := PrintLnColor(id, colors, i, msg);
      var prefix := Colored(colors[i % |colors|], "[" + id + "]");
      && line.Some?
      && line.value == prefix + Spaced(msg) + "\n"
      && Uncolored(prefix) == Some((colors[i % |colors|], "[" + id + "]"))
  {
    UncoloredRoundTrip(colors[i % |colors|], "[" + id + "]");
  }

  /** The messages keep their order: printing a + b writes a's parts, then b's. */
  lemma {:induction false} SpacedAppend(a: seq<string>, b: seq<string>)
    ensures Spaced(a + b) == Spaced(a) + Spaced(b)
    decreases |b|
  {
    if |b| > 0 {
      var b0 := b[..|b| - 1];
      assert (a + b)[..|a + b| - 1] == a + b0;
      SpacedAppend(a, b0);
    } else {
      assert a + b == a;
    }
  }
}
