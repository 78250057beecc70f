/**
 * parse_args.go: getDynamicArgsOrPanic (main.go's getDynamicArgs is the same
 * code). An argument holding a `{unique-in-sequence:A-B}` placeholder is
 * replaced, as a whole, by the decimal text of the least number in
 * [min(A,B), max(A,B)] that no earlier placeholder sharing the same `used`
 * table has taken; the number is then marked as taken. When every number in
 * the range is taken the call panics.
 */
module DynamicArgs {
  import opened Wrappers
  import opened Decimal

  /** The bounds captured by the placeholder, in the order they were written. */
  datatype Placeholder = Placeholder(from: nat, to: nat)

  /** An argument as written, with the placeholder the pattern found in it, if any. */
  datatype Arg = Arg(text: string, unique: Option<Placeholder>)

  /** The result of a call: the rewritten arguments, or the panic's message. */
  datatype Replaced = Replaced(args: seq<string>) | Panic(message: string)

  /** The result together with the numbers taken once the call has returned or panicked. */
  datatype Allocation = Allocation(result: Replaced, used: set<int>)

  /**
   * The `*map[int]bool` shared by every call of one swarm. Only `true` is
   * ever stored in it, so the set of its keys is all there is to it.
   */
  class UsedNumbers {
    var numbers: set<int>

    constructor ()
      ensures numbers == {}
    {
      numbers := {};
    }
  }

  /** The search range after the swap. */
  function Lo(p: Placeholder): nat {
    if p.from > p.to then p.to else p.from
  }

  function Hi(p: Placeholder): nat {
    if p.from > p.to then p.from else p.to
  }

  /** The least number in [lo, hi] that is not taken. */
  function FirstFree(lo: int, hi: int, used: set<int>): (r: Option<int>)
    ensures r.Some? ==> lo <= r.value <= hi && r.value !in used
    ensures r.Some? ==> forall k :: lo <= k < r.value ==> k in used
    ensures r.None? <==> forall k :: lo <= k <= hi ==> k in used
    decreases hi - lo
  {
    if lo > hi then None
    else if lo !in used then Some(lo)
    else FirstFree(lo + 1, hi, used)
  }

  /** The panic's message names the argument as written, right after "dynamic argument ". */
  function PanicMessage(text: string): (m: string)
    ensures StartsWith(m, "dynamic argument " + text)
  {
    var named := "dynamic argument " + text;
    named + " cannot be allocated a value, all values in the sequense have been reserved"
  }

  /** The texts of the arguments, which is what the copy into replacedArgs starts from. */
  function Texts(args: seq<Arg>): (t: seq<string>)
    ensures |t| == |args| && forall k :: 0 <= k < |args| ==> t[k] == args[k].text
  {
    if |args| == 0 then [] else Texts(args[..|args| - 1]) + [args[|args| - 1].text]
  }

  /** One argument, given the numbers taken before it: its replacement and the numbers taken after it. */
  function ReplaceOne(a: Arg, used: set<int>): (r: Allocation)
    ensures used <= r.used
    ensures r.result.Panic? <==> a.unique.Some? && forall m :: Lo(a.unique.value) <= m <= Hi(a.unique.value) ==> m in used
    ensures r.result.Replaced? ==> |r.result.args| == 1
    ensures a.unique.None? ==> r.result.args == [a.text] && r.used == used
    ensures a.unique.Some? && r.result.Replaced? ==> exists n :: n !in used && r.used == used + {n} && r.result.args == [IntToString(n)]
  {
    match a.unique
    case None => Allocation(Replaced([a.text]), used)
    case Some(p) =>
      match FirstFree(Lo(p), Hi(p), used)
      case None => Allocation(Panic(PanicMessage(a.text)), used)
      case Some(n) => Allocation(Replaced([IntToString(n)]), used + {n})
  }

  /** The call after one more argument: a panic stays, otherwise ReplaceOne decides. */
  function Step(prior: Allocation, a: Arg): Allocation {
    if prior.result.Panic? then prior
    else
      var last := ReplaceOne(a, prior.used);
      if last.result.Panic? then last
      else Allocation(Replaced(prior.result.args + last.result.args), last.used)
  }

  /** The first n arguments, from the left, starting from the table `used`; the first panic ends the call. */
  function Prefix(args: seq<Arg>, used: set<int>, n: nat): (r: Allocation)
    requires n <= |args|
    ensures r.result.Replaced? ==> |r.result.args| == n
    ensures used <= r.used
  {
    if n == 0 then Allocation(Replaced([]), used) else Step(Prefix(args, used, n - 1), args[n - 1])
  }

  /** The whole call. */
  function Replace(args: seq<Arg>, used: set<int>): (r: Allocation)
    ensures used <= r.used
    ensures r.result.Replaced? ==> |r.result.args| == |args|
  {
    Prefix(args, used, |args|)
  }

  /** The number the k-th argument's placeholder is given, if the search finds one. */
  function Taken(args: seq<Arg>, used: set<int>, k: nat): Option<int>
    requires k < |args| && args[k].unique.Some?
  {
    var p := args[k].unique.value;
    FirstFree(Lo(p), Hi(p), Prefix(args, used, k).used)
  }

  /** Once a prefix panics, every longer prefix is that same panic. */
  lemma {:induction false} PanicPersists(args: seq<Arg>, used: set<int>, j: nat, n: nat)
    requires j <= n <= |args|
    requires Prefix(args, used, j).result.Panic?
    ensures Prefix(args, used, n) == Prefix(args, used, j)
    decreases n
  {
    if j < n {
      PanicPersists(args, used, j, n - 1);
    }
  }

  /** The inner `for seq := from; seq <= to; seq++` search: the first free number, if any. */
  method FindFree(lo: int, hi: int, used: set<int>) returns (found: bool, value: int)
    ensures found == FirstFree(lo, hi, used).Some?
    ensures found ==> value == FirstFree(lo, hi, used).value
  {
    var s := lo;
    while s <= hi
      invariant lo <= s && (lo <= hi ==> s <= hi + 1)
      invariant FirstFree(s, hi, used) == FirstFree(lo, hi, used)
      decreases hi - s
    {
      if s !in used {
        return true, s;
      }
      s := s + 1;
    }
    return false, 0;
  }

  /** The body of the outer loop for an argument holding a placeholder: search, then take the number or panic. */
  method Allocate(text: string, p: Placeholder, used: UsedNumbers) returns (r: Replaced)
    modifies used
    ensures Allocation(r, used.numbers) == ReplaceOne(Arg(text, Some(p)), old(used.numbers))
  {
    var didAssign, n := FindFree(Lo(p), Hi(p), used.numbers);
    if !didAssign {
      return Panic(PanicMessage(text));
    }
    used.numbers := used.numbers + {n};
    return Replaced([IntToString(n)]);
  }

  /**
   * One turn of the outer loop, at argument i: a placeholder is searched for
   * and either overwrites replacedArgs[i] or panics; any other argument keeps
   * the copy already there.
   */
  method ReplaceAt(originalArgs: seq<Arg>, ghost used0: set<int>, replacedArgs: seq<string>, i: nat, used: UsedNumbers)
      returns (next: seq<string>, panic: Option<string>)
    requires i < |originalArgs| == |replacedArgs|
    requires replacedArgs[i] == originalArgs[i].text
    requires Prefix(originalArgs, used0, i) == Allocation(Replaced(replacedArgs[..i]), used.numbers)
    modifies used
    ensures |next| == |replacedArgs| && next[i + 1..] == replacedArgs[i + 1..]
    ensures panic.Some? ==> Prefix(originalArgs, used0, i + 1) == Allocation(Panic(panic.value), used.numbers)
    ensures panic.None? ==> Prefix(originalArgs, used0, i + 1) == Allocation(Replaced(next[..i + 1]), used.numbers)
  {
    next := replacedArgs;
    var arg := originalArgs[i];
    if arg.unique.Some? {
      var one := Allocate(arg.text, arg.unique.value, used);
      if one.Panic? {
        return next, Some(one.message);
      }
      next := next[i := one.args[0]];
    }
    assert next[..i + 1] == replacedArgs[..i] + [next[i]];
    panic := None;
  }

  /**
   * getDynamicArgsOrPanic: the rewritten arguments, or the panic, with the
   * shared table updated exactly as Replace says.
   */
  method GetDynamicArgsOrPanic(originalArgs: seq<Arg>, used: UsedNumbers) returns (r: Replaced)
    modifies used
    ensures Allocation(r, used.numbers) == Replace(originalArgs, old(used.numbers))
  {
    ghost var used0 := used.numbers;
    var replacedArgs := Texts(originalArgs);
    var i := 0;
    while i < |originalArgs|
      invariant 0 <= i <= |originalArgs|
      invariant |replacedArgs| == |originalArgs|
      invariant Prefix(originalArgs, used0, i) == Allocation(Replaced(replacedArgs[..i]), used.numbers)
      invariant forall k :: i <= k < |originalArgs| ==> replacedArgs[k] == originalArgs[k].text
    {
      var panic;
      replacedArgs, panic := ReplaceAt(originalArgs, used0, replacedArgs, i, used);
      if panic.Some? {
        PanicPersists(originalArgs, used0, i + 1, |originalArgs|);
        return Panic(panic.value);
      }
      i := i + 1;
    }
    assert replacedArgs[..i] == replacedArgs;
    return Replaced(replacedArgs);
  }

  /** Entries are only ever added to the table. */
  lemma {:induction false} UsedGrows(args: seq<Arg>, used: set<int>, j: nat, k: nat)
    requires j <= k <= |args|
    ensures used <= Prefix(args, used, j).used <= Prefix(args, used, k).used
    decreases k
  {
    if k > j {
      UsedGrows(args, used, j, k - 1);
    } else if j > 0 {
      UsedGrows(args, used, 0, j - 1);
    }
  }

  /** A prefix that did not panic has shorter prefixes that did not panic either. */
  lemma {:induction false} NoEarlierPanic(args: seq<Arg>, used: set<int>, k: nat, n: nat)
    requires k <= n <= |args|
    requires Prefix(args, used, n).result.Replaced?
    ensures Prefix(args, used, k).result.Replaced?
    decreases n
  {
    if k < n {
      NoEarlierPanic(args, used, k, n - 1);
    }
  }

  /** Later arguments never rewrite an earlier entry. */
  lemma {:induction false} EntryStays(args: seq<Arg>, used: set<int>, k: nat, n: nat)
    requires k < n <= |args|
    requires Prefix(args, used, n).result.Replaced?
    ensures Prefix(args, used, k + 1).result.Replaced?
    ensures Prefix(args, used, n).result.args[k] == Prefix(args, used, k + 1).result.args[k]
    decreases n
  {
    if k + 1 < n {
      EntryStays(args, used, k, n - 1);
      var prior := Prefix(args, used, n - 1);
      assert Prefix(args, used, n).result.args ==
        prior.result.args + ReplaceOne(args[n - 1], prior.used).result.args;
    }
  }

  /** The entry argument k contributes, and what it marks as used. */
  lemma EntryOf(args: seq<Arg>, used: set<int>, k: nat)
    requires k < |args|
    requires Prefix(args, used, k + 1).result.Replaced?
    ensures var out := Prefix(args, used, k + 1).result.args;
      && (args[k].unique.None? ==> out[k] == args[k].text)
      && (args[k].unique.Some? ==>
            Taken(args, used, k).Some? &&
            out[k] == IntToString(Taken(args, used, k).value) &&
            Taken(args, used, k).value in Prefix(args, used, k + 1).used)
  {
    var prior := Prefix(args, used, k);
    assert prior.result.Replaced?;
    var last := ReplaceOne(args[k], prior.used);
    assert Prefix(args, used, k + 1).result.args == prior.result.args + last.result.args;
  }

  /**
   * A prefix that did not panic: an argument without a placeholder is copied,
   * and one with a placeholder is the decimal text of the number Taken for it,
   * which is marked as used right after it.
   */
  lemma Shape(args: seq<Arg>, used: set<int>, n: nat)
    requires n <= |args|
    requires Prefix(args, used, n).result.Replaced?
    ensures var out := Prefix(args, used, n).result.args;
      && (forall k :: 0 <= k < n ==> Prefix(args, used, k).result.Replaced?)
      && (forall k :: 0 <= k < n && args[k].unique.None? ==> out[k] == args[k].text)
      && (forall k :: 0 <= k < n && args[k].unique.Some? ==>
            Taken(args, used, k).Some? &&
            out[k] == IntToString(Taken(args, used, k).value) &&
            Taken(args, used, k).value in Prefix(args, used, k + 1).used)
  {
    forall k | 0 <= k < n
      ensures Prefix(args, used, k).result.Replaced?
      ensures var out := Prefix(args, used, n).result.args;
        && (args[k].unique.None? ==> out[k] == args[k].text)
        && (args[k].unique.Some? ==>
              Taken(args, used, k).Some? &&
              out[k] == IntToString(Taken(args, used, k).value) &&
              Taken(args, used, k).value in Prefix(args, used, k + 1).used)
    {
      NoEarlierPanic(args, used, k, n);
      EntryStays(args, used, k, n);
      EntryOf(args, used, k);
    }
  }

  /** The call keeps the length and copies every argument without a placeholder. */
  lemma CopiesPlainArguments(args: seq<Arg>, used: set<int>)
    requires Replace(args, used).result.Replaced?
    ensures var out := Replace(args, used).result.args;
      |out| == |args| && forall k :: 0 <= k < |args| && args[k].unique.None? ==> out[k] == args[k].text
  {
    Shape(args, used, |args|);
  }

  /**
   * A placeholder's argument becomes, as a whole, the decimal text of the
   * least number of its swapped range that was free when it was reached; that
   * number was not in the table passed in and is in the table afterwards.
   */
  lemma AssignsLeastFree(args: seq<Arg>, used: set<int>, k: nat)
    requires Replace(args, used).result.Replaced?
    requires k < |args| && args[k].unique.Some?
    ensures var p, before := args[k].unique.value, Prefix(args, used, k).used;
      exists n ::
        && Replace(args, used).result.args[k] == IntToString(n)
        && Lo(p) <= n <= Hi(p)
        && (p.from <= p.to ==> p.from <= n <= p.to)
        && n !in before
        && (forall m :: Lo(p) <= m < n ==> m in before)
        && n !in used
        && n in Replace(args, used).used
  {
    Shape(args, used, |args|);
    UsedGrows(args, used, k, k + 1);
    UsedGrows(args, used, k + 1, |args|);
    var n := Taken(args, used, k).value;
    assert Replace(args, used).result.args[k] == IntToString(n);
  }

  /** No two placeholders of one call are given the same text. */
  lemma DistinctWithinCall(args: seq<Arg>, used: set<int>, j: nat, k: nat)
    requires Replace(args, used).result.Replaced?
    requires j < k < |args| && args[j].unique.Some? && args[k].unique.Some?
    ensures Replace(args, used).result.args[j] != Replace(args, used).result.args[k]
  {
    Shape(args, used, |args|);
    UsedGrows(args, used, j + 1, k);
    IntToStringInjective(Taken(args, used, j).value, Taken(args, used, k).value);
  }

  /**
   * Two calls in a row sharing the table, as the swarm makes them: no
   * placeholder of the second call is given the text of one of the first.
   */
  lemma DistinctAcrossCalls(first: seq<Arg>, second: seq<Arg>, used: set<int>, j: nat, k: nat)
    requires Replace(first, used).result.Replaced?
    requires Replace(second, Replace(first, used).used).result.Replaced?
    requires j < |first| && first[j].unique.Some?
    requires k < |second| && second[k].unique.Some?
    ensures Replace(first, used).result.args[j] != Replace(second, Replace(first, used).used).result.args[k]
  {
    var between := Replace(first, used).used;
    Shape(first, used, |first|);
    Shape(second, between, |second|);
    UsedGrows(first, used, j + 1, |first|);
    UsedGrows(second, between, k, k);
    IntToStringInjective(Taken(first, used, j).value, Taken(second, between, k).value);
  }

  /** Argument k holds a placeholder, is reached, and finds every number of its range taken. */
  predicate Exhausted(args: seq<Arg>, used: set<int>, k: nat)
    requires k < |args|
  {
    && Prefix(args, used, k).result.Replaced?
    && args[k].unique.Some?
    && var p := args[k].unique.value;
       forall m :: Lo(p) <= m <= Hi(p) ==> m in Prefix(args, used, k).used
  }

  lemma {:induction false} PanicIffExhaustedPrefix(args: seq<Arg>, used: set<int>, n: nat)
    requires n <= |args|
    ensures Prefix(args, used, n).result.Panic? <==> exists k :: 0 <= k < n && Exhausted(args, used, k)
    ensures Prefix(args, used, n).result.Panic? ==>
      exists k :: 0 <= k < n && Exhausted(args, used, k) && Prefix(args, used, n).result.message == PanicMessage(args[k].text)
  {
    if n > 0 {
      PanicIffExhaustedPrefix(args, used, n - 1);
      var prior := Prefix(args, used, n - 1);
      if prior.result.Replaced? {
        var a := args[n - 1];
        if a.unique.Some? && FirstFree(Lo(a.unique.value), Hi(a.unique.value), prior.used).None? {
          assert Exhausted(args, used, n - 1);
        } else {
          assert !Exhausted(args, used, n - 1);
        }
      }
    }
  }

  /**
   * The call panics iff some placeholder it reaches finds every number of its
   * range taken, and the message then names that argument.
   */
  lemma PanicIffExhausted(args: seq<Arg>, used: set<int>)
    ensures Replace(args, used).result.Panic? <==> exists k :: 0 <= k < |args| && Exhausted(args, used, k)
    ensures Replace(args, used).result.Panic? ==>
      exists k :: 0 <= k < |args| && Exhausted(args, used, k) && Replace(args, used).result.message == PanicMessage(args[k].text)
  {
    PanicIffExhaustedPrefix(args, used, |args|);
  }
}
