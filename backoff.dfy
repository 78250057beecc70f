/**
 * backoff/backoff.go (and its copy in main.go): the exponential restart delay.
 * Durations are whole seconds; math.Pow(2, attempt) is exact for the
 * attempts that reach it (0..5), so it is the integer 2^attempt here.
 */
module Backoff {
  const BaseDelaySeconds: nat := 5
  /** A run that lasted at least this long resets the back-off counter. */
  const ResetIfUpSeconds: nat := 600
  /** The cap, five minutes. */
  const CapSeconds: nat := 300

  function Pow2(n: nat): (r: nat)
    ensures r >= 1
  {
    if n == 0 then 1 else 2 * Pow2(n - 1)
  }

  /** The delay before re-running after the given back-off attempt. */
  function ExpBackoffSeconds(attempt: int): (d: nat)
    ensures attempt >= 6 ==> d == CapSeconds
    ensures attempt < 0 ==> d == 0
    ensures 0 <= attempt ==> BaseDelaySeconds <= d <= CapSeconds
  {
    if attempt >= 6 then CapSeconds
    else if attempt < 0 then 0
    else
      PowBelowCap(attempt);
      BaseDelaySeconds * Pow2(attempt)
  }

  /** 2^n for n <= 5 is at most 32, so 5 * 2^n stays below the cap. */
  lemma {:induction false} PowBelowCap(n: nat)
    requires n <= 5
    ensures Pow2(n) <= 32
  {
    if n > 0 {
      PowBelowCap(n - 1);
    }
  }

  /** Below the cap each attempt doubles the delay of the one before. */
  lemma Doubling(attempt: int)
    requires 0 <= attempt < 5
    ensures ExpBackoffSeconds(attempt + 1) == 2 * ExpBackoffSeconds(attempt)
  {
  }

  /** The delays for attempts 0..6: 5, 10, 20, 40, 80, 160 seconds, then the 300-second cap. */
  lemma Table()
    ensures ExpBackoffSeconds(0) == 5 && ExpBackoffSeconds(1) == 10 && ExpBackoffSeconds(2) == 20
    ensures ExpBackoffSeconds(3) == 40 && ExpBackoffSeconds(4) == 80 && ExpBackoffSeconds(5) == 160
    ensures ExpBackoffSeconds(6) == 300
  {
  }

  lemma {:induction false} Pow2Monotone(a: nat, b: nat)
    requires a <= b
    ensures Pow2(a) <= Pow2(b)
  {
    if a < b {
      Pow2Monotone(a, b - 1);
    }
  }

  /** A later attempt never waits less. */
  lemma Monotone(a: int, b: int)
    requires a <= b
    ensures ExpBackoffSeconds(a) <= ExpBackoffSeconds(b)
  {
    if 0 <= a && b < 6 {
      Pow2Monotone(a, b);
    }
  }
}
