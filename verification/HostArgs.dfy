/** Taking the arguments between `-args` and `-endargs` out of a command line, in place. */
module HostArgs {
  import opened Common

  const ARGS_FLAG := "-args"
  const END_ARGS_FLAG := "-endargs"

  function Lower(c: char): char
  {
    if 'A' <= c <= 'Z' then c - 'A' + 'a' else c
  }

  /** Case-blind comparison of the first `n` characters. */
  predicate Matches(arg: string, flag: string, n: nat)
    requires n <= |flag|
  {
    |arg| >= n && forall i :: 0 <= i < n ==> Lower(arg[i]) == Lower(flag[i])
  }

  predicate MatchesArgs(arg: string)
  {
    Matches(arg, ARGS_FLAG, |ARGS_FLAG|)
  }

  /** The end flag is only compared as far as the other flag is long. */
  predicate MatchesEndArgs(arg: string)
  {
    Matches(arg, END_ARGS_FLAG, |ARGS_FLAG|)
  }

  /** The flag is a dash and four letters, each of them small or capital, and more may follow. */
  lemma {:induction false} MatchesArgsExactly(arg: string)
    ensures MatchesArgs(arg) <==>
      |arg| >= 5 && arg[0] == '-' && arg[1] in "aA" && arg[2] in "rR" && arg[3] in "gG" && arg[4] in "sS"
  {
    assert MatchesArgs(arg) <==> |arg| >= 5 && SameLetters(arg[..5], "-args");
  }

  /** Of the end flag only a dash and four letters have to be there. */
  lemma {:induction false} MatchesEndArgsExactly(arg: string)
    ensures MatchesEndArgs(arg) <==>
      |arg| >= 5 && arg[0] == '-' && arg[1] in "eE" && arg[2] in "nN" && arg[3] in "dD" && arg[4] in "aA"
  {
    assert MatchesEndArgs(arg) <==> |arg| >= 5 && SameLetters(arg[..5], "-enda");
  }

  predicate SameLetters(s: string, t: string)
  {
    |s| == |t| && forall i :: 0 <= i < |s| ==> Lower(s[i]) == Lower(t[i])
  }

  /** Two characters compare alike if they are the same, or the two cases of one letter. */
  predicate Alike(c: char, d: char)
  {
    c == d || ('A' <= c <= 'Z' && d as int == c as int + 32) || ('A' <= d <= 'Z' && c as int == d as int + 32)
  }

  lemma {:induction false} MatchesExactly(arg: string, flag: string)
    ensures Matches(arg, flag, |flag|) <==> |arg| >= |flag| && forall i :: 0 <= i < |flag| ==> Alike(arg[i], flag[i])
  {
    forall c, d ensures Lower(c) == Lower(d) <==> Alike(c, d) {}
  }

  // ----- the splice on sequences -----

  /** The first position from `k` on of an argument that satisfies `p`, or the end. */
  function FindFrom(argv: seq<string>, k: nat, p: string -> bool): (r: nat)
    requires k <= |argv|
    ensures k <= r <= |argv| && (r < |argv| ==> p(argv[r]))
    ensures forall i :: k <= i < r ==> !p(argv[i])
    decreases |argv| - k
  {
    if k == |argv| || p(argv[k]) then k else FindFrom(argv, k + 1, p)
  }

  /** The arguments taken out, if any, and the command line that is left. */
  datatype Spliced = Spliced(taken: Option<seq<string>>, left: seq<string>)

  function Splice(argv: seq<string>): Spliced
  {
    if |argv| < 1 then Spliced(None, argv)
    else
      var start := FindFrom(argv, 1, MatchesArgs) + 1;
      if start >= |argv| then Spliced(None, argv)
      else
        var end := FindFrom(argv, start, MatchesEndArgs);
        if end == start then Spliced(None, argv)
        else Spliced(Some(argv[start..end]), argv[..start - 1] + argv[Min(end + 1, |argv|)..])
  }

  // ----- filtering -----

  function Filter(args: seq<string>, p: string -> bool): seq<string>
  {
    if args == [] then [] else (if p(args[0]) then [] else [args[0]]) + Filter(args[1..], p)
  }

  /** The command line without the arguments that satisfy `p`, its first entry aside. */
  function Kept(argv: seq<string>, p: string -> bool): seq<string>
  {
    if argv == [] then [] else [argv[0]] + Filter(argv[1..], p)
  }

  /** Every argument is kept or dropped by itself, and those kept stay in order. */
  lemma {:induction false} FilterConcat(a: seq<string>, x: string, b: seq<string>, p: string -> bool)
    ensures Filter(a + [x] + b, p) == Filter(a, p) + (if p(x) then [] else [x]) + Filter(b, p)
  {
    if a == [] {
      assert (a + [x] + b)[1..] == b;
    } else {
      FilterConcat(a[1..], x, b, p);
      Reassociate([a[0]], a[1..] + [x], b);
      assert (a + [x] + b)[1..] == a[1..] + [x] + b;
      var first := if p(a[0]) then [] else [a[0]];
      Reassociate(first, Filter(a[1..], p) + (if p(x) then [] else [x]), Filter(b, p));
      Reassociate(first, Filter(a[1..], p), if p(x) then [] else [x]);
    }
  }

  lemma {:induction false} FilterWithout(args: seq<string>, k: nat, p: string -> bool)
    requires k < |args| && p(args[k])
    ensures Filter(args[..k] + args[k+1..], p) == Filter(args, p)
  {
    var left := args[..k] + args[k+1..];
    if k == 0 {
      assert left == args[1..];
    } else {
      FilterWithout(args[1..], k - 1, p);
      assert left[1..] == args[1..][..k-1] + args[1..][k..];
    }
  }

  lemma {:induction false} KeptWithout(argv: seq<string>, k: nat, p: string -> bool)
    requires 1 <= k < |argv| && p(argv[k])
    ensures Kept(argv[..k] + argv[k+1..], p) == Kept(argv, p)
  {
    FilterWithout(argv[1..], k - 1, p);
    assert (argv[..k] + argv[k+1..])[1..] == argv[1..][..k-1] + argv[1..][k..];
  }

  lemma {:induction false} FilterAll(args: seq<string>, p: string -> bool)
    requires forall i :: 0 <= i < |args| ==> !p(args[i])
    ensures Filter(args, p) == args
  {
    if args != [] {
      FilterAll(args[1..], p);
    }
  }

  lemma {:induction false} KeptAll(argv: seq<string>, p: string -> bool)
    requires argv != [] && FindFrom(argv, 1, p) == |argv|
    ensures Kept(argv, p) == argv
  {
    FilterAll(argv[1..], p);
  }

  // ----- the flags themselves -----

  class HostConfigFlags {
    var argsVal: Option<seq<string>>

    constructor ()
      ensures argsVal == None
    {
      argsVal := None;
    }

    /** The first argument from the second on that starts with the flag, in any case; -1 if there is none. */
    method FindArg(argc: nat, argv: array<string>, flag: string) returns (r: int)
      requires argc <= argv.Length
      ensures r == if argc == 0 then -1 else
        var k := FindFrom(argv[..argc], 1, a => Matches(a, flag, |flag|)); if k < argc then k else -1
    {
      ghost var p := a => Matches(a, flag, |flag|);
      var i := 1;
      while i < argc
        invariant argc > 0 ==> 1 <= i <= argc && FindFrom(argv[..argc], i, p) == FindFrom(argv[..argc], 1, p)
        invariant argc == 0 ==> i == 1
      {
        if Matches(argv[i], flag, |flag|) {
          return i;
        }
        i := i + 1;
      }
      return -1;
    }

    method RemoveArg(argc: nat, argv: array<string>, index: nat) returns (newArgc: nat)
      requires index < argc <= argv.Length
      modifies argv
      ensures newArgc == argc - 1
      ensures argv[..newArgc] == old(argv[..index]) + old(argv[index + 1..argc])
      ensures argv[newArgc..] == old(argv[newArgc..])
    {
      ghost var was := argv[..];
      for i := index + 1 to argc
        invariant forall k :: 0 <= k < index ==> argv[k] == was[k]
        invariant forall k :: index <= k < i - 1 ==> argv[k] == was[k + 1]
        invariant forall k :: i - 1 <= k < argv.Length ==> argv[k] == was[k]
      {
        argv[i - 1] := argv[i];
      }
      newArgc := argc - 1;
    }

    /** Removes all arguments that start with the flag, but for the program name. */
    method RemoveAll(flag: string, argc: nat, argv: array<string>) returns (newArgc: nat)
      requires argc <= argv.Length
      modifies argv
      ensures newArgc <= argc && argv[..newArgc] == Kept(old(argv[..argc]), a => Matches(a, flag, |flag|))
    {
      ghost var p := a => Matches(a, flag, |flag|);
      newArgc := argc;
      var flagIndex := FindArg(newArgc, argv, flag);
      while flagIndex >= 0
        invariant newArgc <= argc && Kept(argv[..newArgc], p) == Kept(old(argv[..argc]), p)
        invariant flagIndex == if newArgc == 0 then -1 else
          var k := FindFrom(argv[..newArgc], 1, p); if k < newArgc then k else -1
        decreases newArgc
      {
        ghost var before := argv[..newArgc];
        KeptWithout(before, flagIndex, p);
        assert argv[..flagIndex] == before[..flagIndex] && argv[flagIndex + 1..newArgc] == before[flagIndex + 1..];
        newArgc := RemoveArg(newArgc, argv, flagIndex);
        flagIndex := FindArg(newArgc, argv, flag);
      }
      if newArgc > 0 {
        KeptAll(argv[..newArgc], p);
      }
    }

    method Swap(argv: array<string>, i: nat, j: nat)
      requires i < j < argv.Length
      modifies argv
      ensures argv[..] == old(argv[..])[i := old(argv[j])][j := old(argv[i])]
      ensures multiset(argv[..]) == multiset(old(argv[..]))
    {
      argv[i], argv[j] := argv[j], argv[i];
    }

    /** Swaps the arguments from `from` on with those from `to` on, until there are no more of these. */
    method SwapDown(argc: nat, argv: array<string>, to: nat, from: nat) returns (argIndex: nat)
      requires to < from <= argc + 1 && argc <= argv.Length
      modifies argv
      ensures argIndex == to + (if from <= argc then argc - from else 0)
      ensures argv[..argIndex] == old(argv[..to]) + (if from <= argc then old(argv[from..argc]) else [])
      ensures argv[argc..] == old(argv[argc..])
      ensures multiset(argv[..]) == multiset(old(argv[..]))
    {
      ghost var orig := argv[..];
      argIndex := to;
      var i := from;
      while i < argc
        invariant from <= i && (from <= argc ==> i <= argc) && argIndex == to + (i - from)
        invariant from > argc ==> i == from
        invariant MovedDown(orig, argv[..], to, from, i)
        invariant multiset(argv[..]) == multiset(orig)
      {
        ghost var before := argv[..];
        Swap(argv, argIndex, i);
        MovedOne(orig, before, to, from, i);
        argIndex := argIndex + 1;
        i := i + 1;
      }
      MovedDownParts(orig, argv[..], to, from, i, argc);
    }

    /** The bounds of the block after the first `-args`; they are the same if there is none. */
    method FindBlock(argc: nat, argv: array<string>) returns (argsStart: nat, argsEnd: nat)
      requires argc <= argv.Length
      ensures argc == 0 ==> argsStart == argsEnd
      ensures argc > 0 ==>
        && argsStart == FindFrom(argv[..argc], 1, MatchesArgs) + 1
        && argsEnd == if argsStart <= argc then FindFrom(argv[..argc], argsStart, MatchesEndArgs) else argsStart
    {
      ghost var was := argv[..argc];
      var i := 1;
      while i < argc && !MatchesArgs(argv[i])
        invariant 1 <= i && (argc > 0 ==> i <= argc)
        invariant argc > 0 ==> FindFrom(was, i, MatchesArgs) == FindFrom(was, 1, MatchesArgs)
      {
        i := i + 1;
      }
      i := i + 1;
      argsStart := i;
      while i < argc && !MatchesEndArgs(argv[i])
        invariant argsStart <= i && (argsStart <= argc ==> i <= argc) && (argsStart > argc ==> i == argsStart)
        invariant argsStart <= argc ==> FindFrom(was, i, MatchesEndArgs) == FindFrom(was, argsStart, MatchesEndArgs)
      {
        i := i + 1;
      }
      argsEnd := i;
    }

    /** Takes the block of arguments out of the first `argc` entries, leaving the rest of them in order
        at the front; the array stays a permutation of what it was. */
    method HandleArgsFlag(argc: nat, argv: array<string>) returns (newArgc: nat)
      requires argc <= argv.Length
      modifies this, argv
      ensures
        var s := Splice(old(argv[..argc]));
        && argsVal == (if s.taken.Some? then s.taken else old(argsVal))
        && newArgc == |s.left| && newArgc <= argc && argv[..newArgc] == s.left
        && (s.taken.None? ==> argv[..] == old(argv[..]))
      ensures argv[argc..] == old(argv[argc..])
      ensures multiset(argv[..]) == multiset(old(argv[..]))
    {
      ghost var was := argv[..argc];
      var argsStart, argsEnd := FindBlock(argc, argv);
      var argsCount := argsEnd - argsStart;
      if argsCount == 0 {
        return argc;
      }
      PrefixOfPrefix(argv[..], argc, argsEnd);
      PrefixOfPrefix(argv[..], argc, argsStart - 1);
      argsVal := Some(argv[argsStart..argsEnd]);
      newArgc := SwapDown(argc, argv, argsStart - 1, argsEnd + 1);
      assert newArgc == argc - argsCount - 1 - (if argsEnd < argc then 1 else 0);
      assert argv[..newArgc] == was[..argsStart - 1] + was[Min(argsEnd + 1, argc)..];
    }
  }

  /** The arguments between `from` and `i` have moved to `to`, and those from `i` on have not moved. */
  ghost predicate MovedDown(orig: seq<string>, now: seq<string>, to: nat, from: nat, i: nat)
    requires to < from <= i
  {
    && |now| == |orig| && (i == from || i <= |orig|) && (i == from ==> now == orig) && to <= |orig|
    && (forall k :: 0 <= k < to ==> now[k] == orig[k])
    && (forall k :: to <= k < to + (i - from) ==> now[k] == orig[k - to + from])
    && (forall k :: i <= k < |orig| ==> now[k] == orig[k])
  }

  lemma {:induction false} MovedOne(orig: seq<string>, now: seq<string>, to: nat, from: nat, i: nat)
    requires to < from <= i < |orig| && MovedDown(orig, now, to, from, i)
    ensures MovedDown(orig, now[to + (i - from) := now[i]][i := now[to + (i - from)]], to, from, i + 1)
  {}

  lemma {:induction false} MovedDownParts(orig: seq<string>, now: seq<string>, to: nat, from: nat, i: nat, argc: nat)
    requires to < from <= i && MovedDown(orig, now, to, from, i)
    requires argc <= |orig| && from <= argc + 1 && i == if from <= argc then argc else from
    ensures now[..to + (i - from)] == orig[..to] + (if from <= argc then orig[from..argc] else [])
    ensures now[argc..] == orig[argc..]
  {
  }

  lemma {:induction false} PrefixOfPrefix<T>(s: seq<T>, n: nat, m: nat)
    requires m <= n <= |s|
    ensures s[..n][..m] == s[..m]
  {}

  // ----- what the splice means -----

  /** The command line around a block of arguments after `-args`, up to an end flag if there is one. */
  predicate MadeOf(argv: seq<string>, before: seq<string>, flag: string, block: seq<string>, end: seq<string>, after: seq<string>)
  {
    && argv == before + [flag] + block + end + after
    && before != [] && MatchesArgs(flag) && block != []
    && (forall i :: 1 <= i < |before| ==> !MatchesArgs(before[i]))
    && (forall i :: 0 <= i < |block| ==> !MatchesEndArgs(block[i]))
    && ((|end| == 1 && MatchesEndArgs(end[0])) || (end == [] && after == []))
  }

  /** What is taken and what is left are the parts of the command line: the block, and all but the flags. */
  lemma {:induction false} SpliceParts(argv: seq<string>) returns (before: seq<string>, flag: string, end: seq<string>, after: seq<string>)
    requires Splice(argv).taken.Some?
    ensures MadeOf(argv, before, flag, Splice(argv).taken.value, end, after) && Splice(argv).left == before + after
  {
    var start := FindFrom(argv, 1, MatchesArgs) + 1;
    var stop := FindFrom(argv, start, MatchesEndArgs);
    var block := argv[start..stop];
    assert forall i :: 0 <= i < |block| ==> block[i] == argv[start + i];
    before, flag := argv[..start - 1], argv[start - 1];
    end, after := argv[stop..Min(stop + 1, |argv|)], argv[Min(stop + 1, |argv|)..];
    CutInFive(argv, start - 1, stop, Min(stop + 1, |argv|));
  }

  lemma {:induction false} CutInFive<T>(s: seq<T>, i: nat, j: nat, k: nat)
    requires i < j <= k <= |s|
    ensures s == s[..i] + [s[i]] + s[i+1..j] + s[j..k] + s[k..]
  {
    assert s[..i] + [s[i]] == s[..i+1];
    assert s[..i+1] + s[i+1..j] == s[..j];
    assert s[..j] + s[j..k] == s[..k];
  }

  /** A command line put together around a block of arguments comes apart into just that block and the rest. */
  lemma {:induction false} SpliceTakesBlock(argv: seq<string>, before: seq<string>, flag: string, block: seq<string>, end: seq<string>, after: seq<string>)
    requires MadeOf(argv, before, flag, block, end, after)
    ensures Splice(argv) == Spliced(Some(block), before + after)
  {
    var start := |before| + 1;
    FirstMatch(argv, 1, |before|, MatchesArgs);
    FirstMatch(argv, start, start + |block|, MatchesEndArgs);
    assert argv[start..start + |block|] == block && argv[..start - 1] == before;
    assert argv[Min(start + |block| + 1, |argv|)..] == after;
  }

  lemma {:induction false} FirstMatch(argv: seq<string>, k: nat, m: nat, p: string -> bool)
    requires k <= m <= |argv| && (forall i :: k <= i < m ==> !p(argv[i]))
    requires m < |argv| ==> p(argv[m])
    ensures FindFrom(argv, k, p) == m
    decreases m - k
  {
    if k < m {
      FirstMatch(argv, k + 1, m, p);
    }
  }

  predicate FirstFlag(argv: seq<string>, k: int)
  {
    1 <= k < |argv| && MatchesArgs(argv[k]) && forall i :: 1 <= i < k ==> !MatchesArgs(argv[i])
  }

  /** Something is taken exactly when an argument that is no end of arguments directly follows the
      first `-args`. */
  lemma {:induction false} TakesExactly(argv: seq<string>)
    ensures Splice(argv).taken.Some? <==>
      exists k :: FirstFlag(argv, k) && k < |argv| - 1 && !MatchesEndArgs(argv[k + 1])
  {
    if k :| FirstFlag(argv, k) && k < |argv| - 1 && !MatchesEndArgs(argv[k + 1]) {
      FirstMatch(argv, 1, k, MatchesArgs);
    }
    if Splice(argv).taken.Some? {
      assert FirstFlag(argv, FindFrom(argv, 1, MatchesArgs));
    }
  }
}
