/** Replacing all occurrences of one string in another, in place. */
module Replace {
  import opened Common

  predicate OccursAt(str: string, part: string, i: nat)
  {
    i + |part| <= |str| && forall j :: 0 <= j < |part| ==> str[i + j] == part[j]
  }

  /** The first occurrence from position `from` on. */
  function Find(str: string, part: string, from: nat): (r: Option<nat>)
    requires from <= |str|
    ensures r.Some? ==> from <= r.value && OccursAt(str, part, r.value)
    decreases |str| - from
  {
    if OccursAt(str, part, from) then Some(from)
    else if from == |str| then None
    else Find(str, part, from + 1)
  }

  /** Occurrences are told by what is around them. */
  lemma {:induction false} OccursExactly(str: string, part: string, before: string, after: string)
    requires str == before + part + after
    ensures OccursAt(str, part, |before|)
  {}

  lemma {:induction false} NoneBefore(str: string, part: string, from: nat, i: nat)
    requires from <= i <= |str| && OccursAt(str, part, i)
    ensures Find(str, part, from).Some? && Find(str, part, from).value <= i
    decreases |str| - from
  {
    if !OccursAt(str, part, from) {
      NoneBefore(str, part, from + 1, i);
    }
  }

  /** What is found is an occurrence, and there is none before it. */
  lemma {:induction false} FindIsFirst(str: string, part: string, from: nat)
    requires from <= |str|
    ensures Find(str, part, from).Some? ==>
      var i := Find(str, part, from).value; from <= i && str == str[..i] + part + str[i + |part|..]
    ensures forall before, after :: str == before + part + after && |before| >= from ==>
      Find(str, part, from).Some? && Find(str, part, from).value <= |before|
  {
    forall before, after | str == before + part + after && |before| >= from
      ensures Find(str, part, from).Some? && Find(str, part, from).value <= |before|
    {
      OccursExactly(str, part, before, after);
      NoneBefore(str, part, from, |before|);
    }
  }

  /** The pieces of a string between the occurrences of another, found from left to right. */
  function Split(str: string, part: string): (r: seq<string>)
    requires part != ""
    ensures r != []
    decreases |str|
  {
    var i := Find(str, part, 0);
    if i.None? then [str] else [str[..i.value]] + Split(str[i.value + |part|..], part)
  }

  function Join(pieces: seq<string>, with: string): string
    requires pieces != []
  {
    if |pieces| == 1 then pieces[0] else pieces[0] + with + Join(pieces[1..], with)
  }

  lemma {:induction false} JoinCons(piece: string, rest: seq<string>, with: string)
    requires rest != []
    ensures Join([piece] + rest, with) == piece + with + Join(rest, with)
  {
    assert ([piece] + rest)[1..] == rest;
  }

  /** Splitting and joining with the same string gives the string back... */
  lemma {:induction false} JoinSplit(str: string, part: string)
    requires part != ""
    ensures Join(Split(str, part), part) == str
    decreases |str|
  {
    var i := Find(str, part, 0);
    if i.Some? {
      JoinSplit(str[i.value + |part|..], part);
      JoinCons(str[..i.value], Split(str[i.value + |part|..], part), part);
      FindIsFirst(str, part, 0);
    }
  }

  /** ... and no piece holds the string it was split by. */
  lemma {:induction false} PiecesHoldNone(str: string, part: string)
    requires part != ""
    ensures forall before, after :: before + part + after !in Split(str, part)
    decreases |str|
  {
    var i := Find(str, part, 0);
    if i.Some? {
      PiecesHoldNone(str[i.value + |part|..], part);
    }
    forall before, after | before + part + after == if i.None? then str else str[..i.value] ensures false {
      OccursExactly(before + part + after, part, before, after);
      assert OccursAt(str, part, |before|);
      NoneBefore(str, part, 0, |before|);
    }
  }

  function Replaced(str: string, part: string, with: string): string
    requires part != ""
  {
    Join(Split(str, part), with)
  }

  /** Searching on in a string is searching what is left of it. */
  lemma {:induction false} FindAfter(done: string, rest: string, part: string, k: nat)
    requires k <= |rest|
    ensures Find(done + rest, part, |done| + k) ==
      (var i := Find(rest, part, k); if i.None? then None else Some(|done| + i.value))
    decreases |rest| - k
  {
    var str := done + rest;
    assert OccursAt(str, part, |done| + k) <==> OccursAt(rest, part, k) by {
      if k + |part| <= |rest| {
        assert str[|done| + k..|done| + k + |part|] == rest[k..k + |part|];
      }
    }
    if !OccursAt(rest, part, k) && k < |rest| {
      FindAfter(done, rest, part, k + 1);
    }
  }

  lemma {:induction false} ReplacedCons(str: string, part: string, with: string, k: nat)
    requires part != "" && Find(str, part, 0) == Some(k)
    ensures Replaced(str, part, with) == str[..k] + with + Replaced(str[k + |part|..], part, with)
  {
    JoinCons(str[..k], Split(str[k + |part|..], part), with);
  }

  lemma {:induction false} Regroup<T>(done: seq<T>, a: seq<T>, b: seq<T>, c: seq<T>)
    ensures done + (a + b + c) == (done + a + b) + c
  {}

  /** Replacing at position `at` of the whole string replaces in what is left to search. */
  lemma {:induction false} ReplaceAt<T>(result: seq<T>, done: seq<T>, rest: seq<T>, with: seq<T>, at: nat, n: nat)
    requires done <= result && rest == result[|done|..] && |done| <= at && at + n <= |result|
    ensures result[..at] == done + rest[..at - |done|]
    ensures result[at + n..] == rest[at - |done| + n..]
  {}

  /** What `result` still has to become when `done` of it is done, by replacing in the rest. */
  ghost predicate Underway(result: string, done: string, replace: string -> string, goal: string)
  {
    done <= result && goal == done + replace(result[|done|..])
  }

  lemma {:induction false} ReplaceOne(result: string, done: string, replace: string -> string, with: string, goal: string, at: nat, n: nat)
    requires Underway(result, done, replace, goal) && |done| <= at && at + n <= |result|
    requires var rest, k := result[|done|..], at - |done|; replace(rest) == rest[..k] + with + replace(rest[k + n..])
    ensures Underway(result[..at] + with + result[at + n..], result[..at] + with, replace, goal)
  {
    var rest := result[|done|..];
    ReplaceParts(result, done, rest, with, replace(rest[at - |done| + n..]), at, n);
  }

  lemma {:induction false} FindInRest(result: string, done: string, part: string)
    requires done <= result
    ensures Find(result, part, |done|) ==
      (var i := Find(result[|done|..], part, 0); if i.None? then None else Some(|done| + i.value))
  {
    FindAfter(done, result[|done|..], part, 0);
    assert result == done + result[|done|..];
  }

  lemma {:induction false} ReplaceParts<T>(result: seq<T>, done: seq<T>, rest: seq<T>, with: seq<T>, tail: seq<T>, at: nat, n: nat)
    requires done <= result && rest == result[|done|..] && |done| <= at && at + n <= |result|
    ensures
      var k, next, nowDone := at - |done|, result[..at] + with + result[at + n..], result[..at] + with;
      && nowDone <= next && next[|nowDone|..] == rest[k + n..]
      && done + (rest[..k] + with + tail) == nowDone + tail
  {
    ReplaceAt(result, done, rest, with, at, n);
    Regroup(done, rest[..at - |done|], with, tail);
    PrefixOf(result[..at] + with, result[at + n..]);
  }

  lemma {:induction false} PrefixOf<T>(a: seq<T>, b: seq<T>)
    ensures a <= a + b && (a + b)[|a|..] == b
  {}

  // ----- the turns of the loop -----

  /** One turn: `with` is put in at an occurrence, and the next is searched behind it. */
  function Turn(str: string, part: string, with: string, at: nat): (r: (string, Option<nat>))
    requires OccursAt(str, part, at)
    ensures r.1.Some? ==> OccursAt(r.0, part, r.1.value)
  {
    var result := str[..at] + with + str[at + |part|..];
    (result, if at < |result| - |with| then Find(result, part, at + |with|) else None)
  }

  lemma {:induction false} TurnFinds(str: string, part: string, with: string, at: nat)
    requires part != "" && OccursAt(str, part, at)
    ensures var t := Turn(str, part, with, at); at + |with| <= |t.0| && t.1 == Find(t.0, part, at + |with|)
  {}

  /** Does the loop end within `n` turns? */
  predicate EndsWithin(str: string, part: string, with: string, i: Option<nat>, n: nat)
    requires i.Some? ==> OccursAt(str, part, i.value)
    decreases n
  {
    i.None? || (n > 0 && var t := Turn(str, part, with, i.value); EndsWithin(t.0, part, with, t.1, n - 1))
  }

  lemma {:induction false} TurnsRunOut(str: string, part: string, with: string, i: Option<nat>, n: nat)
    requires part != "" && (i.Some? ==> OccursAt(str, part, i.value) && n > |str| - i.value)
    ensures EndsWithin(str, part, with, i, n)
    decreases n
  {
    if i.Some? {
      var t := Turn(str, part, with, i.value);
      TurnsRunOut(t.0, part, with, t.1, n - 1);
    }
  }

  /** The empty string occurs wherever it is searched, and what is behind it never gets shorter. */
  lemma {:induction false} NeverEnds(str: string, with: string, at: nat, n: nat)
    requires at < |str|
    ensures OccursAt(str, "", at) && !EndsWithin(str, "", with, Some(at), n)
    decreases n
  {
    if n > 0 {
      NeverEnds(Turn(str, "", with, at).0, with, at + |with|, n - 1);
    }
  }

  ghost predicate Ends(str: string, part: string, with: string, i: Option<nat>)
    requires i.Some? ==> OccursAt(str, part, i.value)
  {
    exists n: nat :: EndsWithin(str, part, with, i, n)
  }

  lemma {:induction false} EmptyEnds(with: string, i: Option<nat>, n: nat)
    requires i == Some(0) && n == 1
    ensures OccursAt("", "", 0) && EndsWithin("", "", with, i, n)
  {
    assert Turn("", "", with, 0).1 == None;
  }

  /** The loop ends exactly when there is something to search for, or nothing to search in. */
  lemma {:induction false} EndsExactly(str: string, part: string, with: string)
    ensures Ends(str, part, with, Find(str, part, 0)) <==> part != "" || str == ""
  {
    var i := Find(str, part, 0);
    if part != "" {
      TurnsRunOut(str, part, with, i, |str| + 1);
    } else if str == "" {
      EmptyEnds(with, i, 1);
    } else {
      forall n: nat ensures !EndsWithin(str, part, with, i, n) {
        NeverEnds(str, with, 0, n);
      }
    }
  }

  method ReplaceNext(str: string, replaceThis: string, withThis: string, at: nat) returns (result: string, next: Option<nat>)
    requires OccursAt(str, replaceThis, at)
    ensures (result, next) == Turn(str, replaceThis, withThis, at)
  {
    result := str[..at] + withThis + str[at + |replaceThis|..];
    assert |result| >= |withThis|;
    if at < |result| - |withThis| {
      next := Find(result, replaceThis, at + |withThis|);
    } else {
      next := None;
    }
  }

  // ----- the whole loop -----

  /** `replace` replaces the first occurrence and then those in the rest. */
  ghost predicate Replaces(replace: string -> string, part: string, with: string)
    requires part != ""
  {
    && (forall str {:trigger Missing(str, part)} :: Missing(str, part) ==> replace(str) == str)
    && (forall str, k: nat {:trigger FoundAt(str, part, k)} :: FoundAt(str, part, k) ==>
        replace(str) == str[..k] + with + replace(str[k + |part|..]))
  }

  predicate Missing(str: string, part: string)
  {
    Find(str, part, 0) == None
  }

  predicate FoundAt(str: string, part: string, k: nat)
  {
    k + |part| <= |str| && Find(str, part, 0) == Some(k)
  }

  lemma {:induction false} ReplacedReplaces(str: string, part: string, with: string) returns (replace: string -> string)
    requires part != ""
    ensures Replaces(replace, part, with) && replace(str) == Replaced(str, part, with)
  {
    replace := (s: string) => Replaced(s, part, with);
    forall s, k: nat | FoundAt(s, part, k)
      ensures replace(s) == s[..k] + with + replace(s[k + |part|..])
    {
      ReplacedCons(s, part, with, k);
    }
  }

  lemma {:induction false} StartReplacing(str: string, replace: string -> string)
    ensures Underway(str, "", replace, replace(str))
  {
    assert str[0..] == str;
  }

  lemma {:induction false} ReplaceFound(result: string, done: string, part: string, with: string, replace: string -> string, goal: string, at: nat)
    requires part != "" && Underway(result, done, replace, goal) && Find(result, part, |done|) == Some(at)
    requires Replaces(replace, part, with)
    ensures Underway(result[..at] + with + result[at + |part|..], result[..at] + with, replace, goal)
  {
    FindInRest(result, done, part);
    assert FoundAt(result[|done|..], part, at - |done|);
    ReplaceOne(result, done, replace, with, goal, at, |part|);
  }

  lemma {:induction false} ReplaceDone(result: string, done: string, part: string, with: string, replace: string -> string, goal: string)
    requires part != "" && Underway(result, done, replace, goal) && Find(result, part, |done|) == None
    requires Replaces(replace, part, with)
    ensures result == goal
  {
    FindInRest(result, done, part);
    assert Missing(result[|done|..], part);
  }

  /** What the loop keeps: with something to search for, `goal` is still to be reached behind `done`;
      otherwise the string is empty and is searched once. */
  ghost predicate Reaches(result: string, i: Option<nat>, done: string, part: string, with: string, replace: string -> string, goal: string)
  {
    if part == "" then if i.Some? then i.value == 0 && result == "" else result == with
    else Replaces(replace, part, with) && Underway(result, done, replace, goal) && i == Find(result, part, |done|)
  }

  lemma {:induction false} ReachesOn(
    result: string, i: Option<nat>, done: string, part: string, with: string, replace: string -> string, goal: string)
    returns (next: string)
    requires i.Some? && OccursAt(result, part, i.value) && Reaches(result, i, done, part, with, replace, goal)
    ensures var t := Turn(result, part, with, i.value);
      && Reaches(t.0, t.1, next, part, with, replace, goal)
      && (part == "" ==> t.1.None?)
      && (part != "" ==> |next| == i.value + |with| && |next| <= |t.0| && |t.0| - |next| < |result| - |done|)
  {
    next := result[..i.value] + with;
    if part != "" {
      TurnFinds(result, part, with, i.value);
      ReplaceFound(result, done, part, with, replace, goal, i.value);
    } else {
      assert result[..0] + with + result[0..] == with;
    }
  }

  /** Replaces all occurrences of `replaceThis`, going on behind what was put in. */
  method ReplaceInPlace(str: string, replaceThis: string, withThis: string) returns (result: string, replaced: bool)
    requires replaceThis != "" || str == ""
    ensures result == if replaceThis == "" then withThis else Replaced(str, replaceThis, withThis)
    ensures replaced <==> Find(str, replaceThis, 0).Some?
  {
    result := str;
    replaced := false;
    var i := Find(result, replaceThis, 0);
    ghost var replace, done, goal, found := (s: string) => s, "", "", i.Some?;
    if replaceThis != "" {
      replace := ReplacedReplaces(str, replaceThis, withThis);
      goal := replace(str);
      StartReplacing(str, replace);
    }
    while i.Some?
      invariant Reaches(result, i, done, replaceThis, withThis, replace, goal)
      invariant i.Some? ==> OccursAt(result, replaceThis, i.value)
      invariant found == (replaced || i.Some?)
      decreases if replaceThis != "" then |result| - |done| else 0, i.Some?
    {
      replaced := true;
      done := ReachesOn(result, i, done, replaceThis, withThis, replace, goal);
      result, i := ReplaceNext(result, replaceThis, withThis, i.value);
    }
    if replaceThis != "" {
      ReplaceDone(result, done, replaceThis, withThis, replace, goal);
    }
  }
}
