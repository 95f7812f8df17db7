/** The line of `=` signs under the totals, shared out among three kinds of test cases. */
module Divider {

  datatype Counts = Counts(passed: nat, failed: nat, failedButOk: nat)
  {
    function Total(): nat
    {
      passed + failed + failedButOk
    }

    /** How many of the counts are not zero. */
    function Kinds(): nat
    {
      (if passed > 0 then 1 else 0) + (if failed > 0 then 1 else 0) + (if failedButOk > 0 then 1 else 0)
    }
  }

  datatype Which = First | Second | Third

  /** The one of three numbers to adjust. */
  function FindMax(i: nat, j: nat, k: nat): Which
  {
    if i > j && i > k then First else if j > k then Second else Third
  }

  function Pick(w: Which, i: nat, j: nat, k: nat): nat
  {
    match w case First => i case Second => j case Third => k
  }

  /** The one picked is the last of the largest. */
  lemma {:induction false} FindMaxIsMax(i: nat, j: nat, k: nat)
    ensures var m := Pick(FindMax(i, j, k), i, j, k); m >= i && m >= j && m >= k
    ensures FindMax(i, j, k) == First ==> i > j && i > k
    ensures FindMax(i, j, k) == Second ==> j > k
  {}

  function MakeRatio(number: nat, total: nat, console: nat): nat
  {
    var ratio := if total > 0 then console * number / total else 0;
    if ratio == 0 && number > 0 then 1 else ratio
  }

  /** Is `width` within a column above, and less than three below, what `number` of `total` is due? */
  predicate Close(width: int, number: nat, total: nat, console: nat)
  {
    console * number - 3 * total < width * total <= console * number + total
  }

  lemma {:induction false} RatioBounds(number: nat, total: nat, console: nat)
    requires 0 < total && 0 < console
    ensures
      var w := MakeRatio(number, total, console);
      && console * number < w * total + total
      && (w * total <= console * number || (w * total == total && 0 < console * number < total))
      && (w == 0 <==> number == 0)
  {
    var n := console * number;
    assert n == n / total * total + n % total;
    assert number > 0 ==> n > 0;
  }

  /** Kinds that do not occur get nothing. */
  predicate NothingForNone(c: Counts, failed: nat, failedButOk: nat, passed: nat)
  {
    && (c.failed == 0 ==> failed == 0) && (c.failedButOk == 0 ==> failedButOk == 0) && (c.passed == 0 ==> passed == 0)
  }

  /** Kinds that occur get something. */
  predicate SomethingForAll(c: Counts, failed: nat, failedButOk: nat, passed: nat)
  {
    && (c.failed > 0 ==> failed > 0) && (c.failedButOk > 0 ==> failedButOk > 0) && (c.passed > 0 ==> passed > 0)
  }

  /** Columns have been taken off the largest of the widths only, and from the later one of two as large:
      what is true of any earlier and later one of the three. */
  predicate TakenOff(earlier: nat, earlierNow: nat, later: nat, laterNow: nat)
  {
    && earlierNow <= earlier && laterNow <= later
    && (earlierNow < earlier ==> laterNow <= earlierNow)
    && (laterNow < later ==> earlierNow <= laterNow + 1)
  }

  /** A column has been put on the largest of the widths only, and on the later one of two as large. */
  predicate PutOn(earlier: nat, earlierNow: nat, later: nat, laterNow: nat)
  {
    || (earlierNow == earlier && laterNow == later)
    || (earlierNow == earlier + 1 && laterNow == later && later < earlier)
    || (earlierNow == earlier && laterNow == later + 1 && earlier <= later)
  }

  /** Shares out all but one of the columns of a console. Each kind that occurs keeps a column exactly
      when there are enough of them. */
  method TotalsDivider(c: Counts, console: nat) returns (failed: nat, failedButOk: nat, passed: nat)
    requires c.Total() > 0 && console > 0
    ensures failed + failedButOk + passed == console - 1
    ensures NothingForNone(c, failed, failedButOk, passed)
    ensures SomethingForAll(c, failed, failedButOk, passed) <==> console - 1 >= c.Kinds()
    ensures Close(failed, c.failed, c.Total(), console)
    ensures Close(failedButOk, c.failedButOk, c.Total(), console)
    ensures Close(passed, c.passed, c.Total(), console)
    ensures
      var t := c.Total();
      var f, b, p := MakeRatio(c.failed, t, console), MakeRatio(c.failedButOk, t, console), MakeRatio(c.passed, t, console);
      if f + b + p < console - 1 then
        f + b + p == console - 2 && PutOn(f, failed, b, failedButOk) && PutOn(f, failed, p, passed) && PutOn(b, failedButOk, p, passed)
      else
        TakenOff(f, failed, b, failedButOk) && TakenOff(f, failed, p, passed) && TakenOff(b, failedButOk, p, passed)
  {
    failed := MakeRatio(c.failed, c.Total(), console);
    failedButOk := MakeRatio(c.failedButOk, c.Total(), console);
    passed := MakeRatio(c.passed, c.Total(), console);
    StartsClose(c, console);
    ghost var f, b, p := failed, failedButOk, passed;
    while failed + failedButOk + passed < console - 1
      invariant NothingForNone(c, failed, failedButOk, passed) && SomethingForAll(c, failed, failedButOk, passed)
      invariant failed >= f && failedButOk >= b && passed >= p
      invariant f + b + p < console - 1 ==>
        PutOn(f, failed, b, failedButOk) && PutOn(f, failed, p, passed) && PutOn(b, failedButOk, p, passed)
      invariant failed + failedButOk + passed <= if f + b + p < console - 1 then console - 1 else f + b + p
      decreases console - (failed + failedButOk + passed)
    {
      match FindMax(failed, failedButOk, passed)
      case First => failed := failed + 1;
      case Second => failedButOk := failedButOk + 1;
      case Third => passed := passed + 1;
    }
    while failed + failedButOk + passed > console - 1
      invariant NothingForNone(c, failed, failedButOk, passed)
      invariant console - 1 >= c.Kinds() ==> SomethingForAll(c, failed, failedButOk, passed)
      invariant failed + failedButOk + passed >= console - 1
      invariant f + b + p < console - 1 ==> failed + failedButOk + passed == console - 1
      invariant f + b + p >= console - 1 ==>
        TakenOff(f, failed, b, failedButOk) && TakenOff(f, failed, p, passed) && TakenOff(b, failedButOk, p, passed)
      invariant f + b + p < console - 1 ==>
        PutOn(f, failed, b, failedButOk) && PutOn(f, failed, p, passed) && PutOn(b, failedButOk, p, passed)
      invariant f + b + p < console - 1 ==> failed >= f && failedButOk >= b && passed >= p
      decreases failed + failedButOk + passed
    {
      match FindMax(failed, failedButOk, passed)
      case First => failed := failed - 1;
      case Second => failedButOk := failedButOk - 1;
      case Third => passed := passed - 1;
    }
    AdjustedClose(c, console, failed, failedButOk, passed);
  }

  /** The first shares add up to at most two columns more than wanted, or one less, unless the console
      is too narrow for three of them. */
  lemma {:induction false} StartsClose(c: Counts, console: nat)
    requires c.Total() > 0 && console > 0
    ensures
      var t := c.Total();
      var f, b, p := MakeRatio(c.failed, t, console), MakeRatio(c.failedButOk, t, console), MakeRatio(c.passed, t, console);
      && console - 2 <= f + b + p && (console >= 3 ==> f + b + p <= console + 1)
      && NothingForNone(c, f, b, p) && SomethingForAll(c, f, b, p)
  {
    var t := c.Total();
    var f, b, p := MakeRatio(c.failed, t, console), MakeRatio(c.failedButOk, t, console), MakeRatio(c.passed, t, console);
    RatioBounds(c.failed, t, console);
    RatioBounds(c.failedButOk, t, console);
    RatioBounds(c.passed, t, console);
    SumsStart(c, console, f, b, p);
  }

  lemma {:induction false} SumsStart(c: Counts, console: nat, f: nat, b: nat, p: nat)
    requires c.Total() > 0 && console > 0
    requires Share(console * c.failed, f * c.Total(), c.Total())
    requires Share(console * c.failedButOk, b * c.Total(), c.Total())
    requires Share(console * c.passed, p * c.Total(), c.Total())
    ensures console - 2 <= f + b + p && (console >= 3 ==> f + b + p <= console + 1)
  {
    var t := c.Total();
    Distribute(c.failed, c.failedButOk, c.passed, console);
    Monotone(3, console, t);
    SumsClose(console * c.failed, console * c.failedButOk, console * c.passed, f * t, b * t, p * t, t, console * t);
    SumBounds(f, b, p, console, t);
  }

  lemma {:induction false} SumBounds(f: nat, b: nat, p: nat, console: nat, t: nat)
    requires t > 0 && console * t - 3 * t < f * t + b * t + p * t
    requires console >= 3 ==> f * t + b * t + p * t < console * t + 2 * t
    ensures console - 2 <= f + b + p && (console >= 3 ==> f + b + p <= console + 1)
  {
    Distribute(f, b, p, t);
    Distribute(console, -3, 0, t);
    Distribute(console, 2, 0, t);
    Monotone(f + b + p, console - 3, t);
    Monotone(console + 2, f + b + p, t);
  }

  lemma {:induction false} Distribute(f: int, b: int, p: int, t: int)
    ensures (f + b + p) * t == f * t + b * t + p * t && t * (f + b + p) == t * f + t * b + t * p
  {}

  /** Is `w` the share `due` rounded down to a multiple of `total`, or raised to `total`? */
  predicate Share(due: nat, w: nat, total: nat)
  {
    due < w + total && (w <= due || (w == total && 0 < due < total))
  }

  lemma {:induction false} SumsClose(x: nat, y: nat, z: nat, f: nat, b: nat, p: nat, total: nat, all: nat)
    requires total > 0 && x + y + z == all
    requires Share(x, f, total) && Share(y, b, total) && Share(z, p, total)
    ensures all - 3 * total < f + b + p && (all >= 3 * total ==> f + b + p < all + 2 * total)
  {}

  /** Products with the same number compare like the other factors. */
  lemma {:induction false} Monotone(b: int, a: int, t: nat)
    ensures b <= a ==> b * t <= a * t
  {
    if b <= a {
      assert a * t == b * t + (a - b) * t;
    }
  }

  lemma {:induction false} AdjustedOne(number: nat, total: nat, console: nat, width: nat)
    requires 0 < total && 0 < console && number <= total
    requires var w := MakeRatio(number, total, console);
      || width == w || width == w - 1 || width == w - 2 || (width == w + 1 && w * total <= console * number)
      || (console < 3 && width <= w)
    ensures Close(width, number, total, console)
  {
    RatioBounds(number, total, console);
    var w := MakeRatio(number, total, console);
    Distribute(w, 1, 0, total);
    Distribute(w, -1, 0, total);
    Distribute(w, -2, 0, total);
    Monotone(width, w, total);
    if console < 3 {
      Monotone(console, 2, number);
    }
  }

  lemma {:induction false} AdjustedClose(c: Counts, console: nat, failed: nat, failedButOk: nat, passed: nat)
    requires c.Total() > 0 && console > 0 && failed + failedButOk + passed == console - 1
    requires
      var t := c.Total();
      var f, b, p := MakeRatio(c.failed, t, console), MakeRatio(c.failedButOk, t, console), MakeRatio(c.passed, t, console);
      (f + b + p < console - 1 && failed >= f && failedButOk >= b && passed >= p)
      || (f + b + p >= console - 1 && failed <= f && failedButOk <= b && passed <= p)
    ensures Close(failed, c.failed, c.Total(), console)
    ensures Close(failedButOk, c.failedButOk, c.Total(), console)
    ensures Close(passed, c.passed, c.Total(), console)
  {
    StartsClose(c, console);
    NoBumpBelow(c, console);
    AdjustedOne(c.failed, c.Total(), console, failed);
    AdjustedOne(c.failedButOk, c.Total(), console, failedButOk);
    AdjustedOne(c.passed, c.Total(), console, passed);
  }

  /** When the first shares add up to too little, none of them was raised to one. */
  lemma {:induction false} NoBumpBelow(c: Counts, console: nat)
    requires c.Total() > 0 && console > 0
    ensures
      var t := c.Total();
      var f, b, p := MakeRatio(c.failed, t, console), MakeRatio(c.failedButOk, t, console), MakeRatio(c.passed, t, console);
      f + b + p < console - 1 ==>
        f * t <= console * c.failed && b * t <= console * c.failedButOk && p * t <= console * c.passed
  {
    var t := c.Total();
    var f, b, p := MakeRatio(c.failed, t, console), MakeRatio(c.failedButOk, t, console), MakeRatio(c.passed, t, console);
    RatioBounds(c.failed, t, console);
    RatioBounds(c.failedButOk, t, console);
    RatioBounds(c.passed, t, console);
    Distribute(f, b, p, t);
    Distribute(f + b + p, 2, 0, t);
    Distribute(c.failed, c.failedButOk, c.passed, console);
    Monotone(f + b + p + 2, console, t);
  }
}
