/** What a test case is, and which of its sections each cycle of the run loop should enter.
    This module is the reference: it knows the test body only, and nothing of trackers. */
module SectionTree {

  /** A section is identified among its siblings by its name and its source location. */
  datatype NameAndLocation = NameAndLocation(name: string, file: string, line: nat)

  type Path = seq<NameAndLocation>

  /** The body of a section runs its sub-sections in order and then ends, normally or by throwing.
      Whatever follows a throw is unreachable, so a throw may as well come last. */
  datatype Section = Section(id: NameAndLocation, body: seq<Section>, throws: bool)

  /** One cycle as seen from a section: the path from that section down to the innermost section
      entered, whether that one is a leaf, and whether the cycle left the section by an exception. */
  datatype Visit = Visit(path: Path, leaf: bool, threw: bool)

  ghost predicate DistinctSiblings(body: seq<Section>)
  {
    && (forall i, j :: 0 <= i < j < |body| ==> body[i].id != body[j].id)
    && (forall i :: 0 <= i < |body| ==> DistinctSiblings(body[i].body))
  }

  // ----- the cycles a section takes -----

  /** The cycles of a section whose body has the cycles `inner` still to come. A cycle in which the body throws leaves
      the section incomplete; the first in which the body gets to its end either completes the
      section, fails it (when it throws there), or leaves it waiting for the rest. */
  function Wrap(s: Section, inner: seq<Visit>): (vs: seq<Visit>)
    ensures vs != []
  {
    if inner == [] then
      [Visit([s.id], s.body == [], s.throws)]
    else
      var v := Visit([s.id] + inner[0].path, inner[0].leaf, inner[0].threw || s.throws);
      if inner[0].threw then [v] + Wrap(s, inner[1..])
      else if s.throws || |inner| == 1 then [v]
      else [v] + Wrap(s, inner[1..])
  }

  function Runs(s: Section): seq<Visit>
    decreases s, 0
  {
    Wrap(s, RunsAll(s.body))
  }

  function RunsAll(body: seq<Section>): (vs: seq<Visit>)
    ensures body != [] ==> vs != []
    decreases body, 1
  {
    if body == [] then [] else Runs(body[0]) + RunsAll(body[1..])
  }

  /** The cycles of a test case. An exception that reaches the test case is caught there, and
      the test case's tracker is closed all the same, so it never fails. */
  function TestRuns(test: Section): seq<Visit>
  {
    Runs(test.(throws := false))
  }

  // ----- the leaves of a section, left to right -----

  function Leaves(s: Section): (ls: seq<Path>)
    ensures ls != []
    decreases s, 0
  {
    if s.body == [] then [[s.id]] else Prefixed(s.id, LeavesAll(s.body))
  }

  function LeavesAll(body: seq<Section>): (ls: seq<Path>)
    ensures body != [] ==> ls != []
    decreases body, 1
  {
    if body == [] then [] else Leaves(body[0]) + LeavesAll(body[1..])
  }

  function Prefixed(id: NameAndLocation, paths: seq<Path>): (r: seq<Path>)
    ensures |r| == |paths|
    ensures forall i :: 0 <= i < |r| ==> r[i] == [id] + paths[i]
  {
    seq(|paths|, i requires 0 <= i < |paths| => [id] + paths[i])
  }

  /** The leaves entered by a sequence of cycles. */
  function Entered(vs: seq<Visit>): (r: seq<Path>)
    ensures |r| <= |vs|
  {
    if vs == [] then [] else (if vs[0].leaf then [vs[0].path] else []) + Entered(vs[1..])
  }

  lemma {:induction false} EnteredConcat(a: seq<Visit>, b: seq<Visit>)
    ensures Entered(a + b) == Entered(a) + Entered(b)
  {
    if a == [] {
      assert a + b == b;
    } else {
      assert (a + b)[0] == a[0] && (a + b)[1..] == a[1..] + b;
      EnteredConcat(a[1..], b);
      var first := if a[0].leaf then [a[0].path] else [];
      assert first + (Entered(a[1..]) + Entered(b)) == (first + Entered(a[1..])) + Entered(b);
    }
  }

  // ----- which leaves are reached -----

  /** Only leaves throw. */
  ghost predicate OnlyLeavesThrow(s: Section)
  {
    && (s.body != [] ==> !s.throws)
    && (forall i :: 0 <= i < |s.body| ==> OnlyLeavesThrow(s.body[i]))
  }

  ghost predicate NothingThrows(s: Section)
  {
    && !s.throws
    && (forall i :: 0 <= i < |s.body| ==> NothingThrows(s.body[i]))
  }

  /** Nothing is left to enter once some section of `body` has ended without an exception. */
  predicate EndsLate(body: seq<Section>)
  {
    body == [] ||
    if body[0].throws then EndsLate(body[1..])
    else |body| == 1 && EndsLate(body[0].body)
  }

  /** The condition under which no leaf of `body` is lost: a section that has sub-sections and
      throws is failed by the first cycle that gets past them, so by then it must have run them all. */
  ghost predicate Covered(body: seq<Section>)
  {
    forall i :: 0 <= i < |body| ==> Covered(body[i].body) && (body[i].throws ==> EndsLate(body[i].body))
  }

  // ----- lemmas about Wrap -----

  /** The last cycle of a section throws exactly when the section does. */
  lemma {:induction false} WrapLastThrows(s: Section, inner: seq<Visit>)
    ensures var vs := Wrap(s, inner); vs[|vs|-1].threw == s.throws
  {
    if inner != [] && (inner[0].threw || !(s.throws || |inner| == 1)) {
      WrapLastThrows(s, inner[1..]);
    }
  }

  /** Every cycle of a throwing section leaves it by an exception. */
  lemma {:induction false} WrapAllThrow(s: Section, inner: seq<Visit>)
    requires s.throws
    ensures forall k :: 0 <= k < |Wrap(s, inner)| ==> Wrap(s, inner)[k].threw
  {
    if inner != [] && inner[0].threw {
      WrapAllThrow(s, inner[1..]);
    }
  }

  /** A section that does not throw passes on every cycle of its body. */
  lemma {:induction false} WrapPassesAll(s: Section, inner: seq<Visit>)
    requires !s.throws && s.body != []
    ensures Entered(Wrap(s, inner)) == Prefixed(s.id, Entered(inner))
  {
    if inner != [] && (inner[0].threw || |inner| > 1) {
      WrapPassesAll(s, inner[1..]);
    }
  }

  /** What a throwing section passes on: everything up to the first cycle that gets past its body. */
  function UpToFirstOk(vs: seq<Visit>): (r: seq<Visit>)
    ensures r <= vs
  {
    if vs == [] then []
    else if vs[0].threw then [vs[0]] + UpToFirstOk(vs[1..])
    else [vs[0]]
  }

  lemma {:induction false} WrapTruncates(s: Section, inner: seq<Visit>)
    requires s.throws && s.body != []
    ensures Entered(Wrap(s, inner)) == Prefixed(s.id, Entered(UpToFirstOk(inner)))
  {
    if inner != [] && inner[0].threw {
      WrapTruncates(s, inner[1..]);
    }
  }

  lemma {:induction false} UpToFirstOkConcat(a: seq<Visit>, b: seq<Visit>)
    ensures (forall k :: 0 <= k < |a| ==> a[k].threw) ==> UpToFirstOk(a + b) == a + UpToFirstOk(b)
    ensures (exists k :: 0 <= k < |a| && !a[k].threw) ==> UpToFirstOk(a + b) == UpToFirstOk(a)
  {
    if a == [] {
      assert a + b == b;
    } else {
      assert (a + b)[1..] == a[1..] + b;
      UpToFirstOkConcat(a[1..], b);
    }
  }

  // ----- the main results about the reference -----

  /** No section enters more leaves than it has. */
  lemma {:induction false} EnteredAtMost(s: Section)
    ensures |Entered(Runs(s))| <= |Leaves(s)|
    decreases s, 0
  {
    EnteredAllAtMost(s.body);
    if s.body != [] {
      var inner := RunsAll(s.body);
      if s.throws {
        WrapTruncates(s, inner);
        EnteredPrefix(UpToFirstOk(inner), inner);
      } else {
        WrapPassesAll(s, inner);
      }
    }
  }

  lemma {:induction false} EnteredAllAtMost(body: seq<Section>)
    ensures |Entered(RunsAll(body))| <= |LeavesAll(body)|
    decreases body, 1
  {
    if body != [] {
      EnteredAtMost(body[0]);
      EnteredAllAtMost(body[1..]);
      EnteredConcat(Runs(body[0]), RunsAll(body[1..]));
    }
  }

  lemma {:induction false} EnteredPrefix(a: seq<Visit>, b: seq<Visit>)
    requires a <= b
    ensures Entered(a) <= Entered(b)
  {
    EnteredConcat(a, b[|a|..]);
    assert b == a + b[|a|..];
  }

  /** Each section's first cycle enters one of its leaves. */
  lemma {:induction false} FirstRunEntersLeaf(s: Section)
    ensures Runs(s)[0].leaf
  {
    if s.body != [] {
      FirstRunEntersLeaf(s.body[0]);
    }
  }

  lemma {:induction false} UpToFirstOkUnderWrap(s: Section, inner: seq<Visit>)
    requires !s.throws && s.body != []
    ensures |Entered(UpToFirstOk(Wrap(s, inner)))| == |Entered(UpToFirstOk(inner))|
  {
    if inner != [] && inner[0].threw {
      UpToFirstOkUnderWrap(s, inner[1..]);
    }
  }

  lemma {:induction false} ThrowingFirst(body: seq<Section>)
    requires body != [] && body[0].throws
    ensures |Entered(UpToFirstOk(RunsAll(body)))| == |Entered(Runs(body[0]))| + |Entered(UpToFirstOk(RunsAll(body[1..])))|
    ensures |Entered(RunsAll(body))| == |Entered(Runs(body[0]))| + |Entered(RunsAll(body[1..]))|
  {
    var first, rest := Runs(body[0]), RunsAll(body[1..]);
    WrapAllThrow(body[0], RunsAll(body[0].body));
    UpToFirstOkConcat(first, rest);
    EnteredConcat(first, rest);
    EnteredConcat(first, UpToFirstOk(rest));
  }

  lemma {:induction false} QuietFirst(body: seq<Section>)
    requires body != [] && !body[0].throws
    ensures UpToFirstOk(RunsAll(body)) == UpToFirstOk(Runs(body[0]))
    ensures |body| > 1 ==> |Entered(UpToFirstOk(RunsAll(body)))| < |Entered(RunsAll(body))|
  {
    var first, rest := Runs(body[0]), RunsAll(body[1..]);
    WrapLastThrows(body[0], RunsAll(body[0].body));
    assert !first[|first|-1].threw;
    UpToFirstOkConcat(first, rest);
    EnteredConcat(first, rest);
    EnteredPrefix(UpToFirstOk(first), first);
    if |body| > 1 {
      FirstRunEntersLeaf(body[1]);
      assert rest == Runs(body[1]) + RunsAll(body[2..]);
      assert rest[0].leaf && |Entered(rest)| > 0;
    }
  }

  /** `EndsLate` is exactly the condition under which a throwing section with this body is
      failed only after its last leaf. */
  lemma {:induction false} EndsLateExactly(body: seq<Section>)
    ensures EndsLate(body) <==> |Entered(UpToFirstOk(RunsAll(body)))| == |Entered(RunsAll(body))|
  {
    if body != [] {
      if body[0].throws {
        ThrowingFirst(body);
        EndsLateExactly(body[1..]);
      } else {
        QuietFirst(body);
        if |body| == 1 && body[0].body != [] {
          UpToFirstOkUnderWrap(body[0], RunsAll(body[0].body));
          WrapPassesAll(body[0], RunsAll(body[0].body));
          EndsLateExactly(body[0].body);
        }
        assert |body| == 1 ==> RunsAll(body) == Runs(body[0]) + [] == Runs(body[0]);
      }
    }
  }

  // ----- no leaf is entered out of order, or twice -----

  /** The elements of `a` are among those of `b`, in the same order and no more often. */
  ghost predicate Subsequence<T>(a: seq<T>, b: seq<T>)
  {
    a == [] || (b != [] && ((a[0] == b[0] && Subsequence(a[1..], b[1..])) || Subsequence(a, b[1..])))
  }

  lemma {:induction false} SubsequenceItself<T>(a: seq<T>)
    ensures Subsequence(a, a)
  {
    if a != [] {
      SubsequenceItself(a[1..]);
    }
  }

  lemma {:induction false} SubsequenceConcat<T>(a: seq<T>, b: seq<T>, c: seq<T>, d: seq<T>)
    requires Subsequence(a, b) && Subsequence(c, d)
    ensures Subsequence(a + c, b + d)
  {
    if b == [] {
      assert a + c == c && b + d == d;
    } else {
      assert (b + d)[1..] == b[1..] + d;
      if a != [] && a[0] == b[0] && Subsequence(a[1..], b[1..]) {
        SubsequenceConcat(a[1..], b[1..], c, d);
        assert (a + c)[1..] == a[1..] + c;
      } else {
        SubsequenceConcat(a, b[1..], c, d);
      }
    }
  }

  lemma {:induction false} SubsequencePrefix<T>(a: seq<T>, b: seq<T>, n: nat)
    requires Subsequence(a, b) && n <= |a|
    ensures Subsequence(a[..n], b)
  {
    if n > 0 {
      if a[0] == b[0] && Subsequence(a[1..], b[1..]) {
        SubsequencePrefix(a[1..], b[1..], n - 1);
        assert a[..n][1..] == a[1..][..n-1];
      } else {
        SubsequencePrefix(a, b[1..], n);
      }
    }
  }

  lemma {:induction false} SubsequencePrefixed(id: NameAndLocation, a: seq<Path>, b: seq<Path>)
    requires Subsequence(a, b)
    ensures Subsequence(Prefixed(id, a), Prefixed(id, b))
  {
    if a != [] {
      assert Prefixed(id, b)[1..] == Prefixed(id, b[1..]);
      if a[0] == b[0] && Subsequence(a[1..], b[1..]) {
        SubsequencePrefixed(id, a[1..], b[1..]);
        assert Prefixed(id, a)[1..] == Prefixed(id, a[1..]);
      } else {
        SubsequencePrefixed(id, a, b[1..]);
      }
    }
  }

  lemma {:induction false} SubsequenceElement<T>(a: seq<T>, b: seq<T>, i: nat)
    requires Subsequence(a, b) && i < |a|
    ensures a[i] in b
  {
    if a[0] == b[0] && Subsequence(a[1..], b[1..]) {
      if i > 0 {
        SubsequenceElement(a[1..], b[1..], i - 1);
      }
    } else {
      SubsequenceElement(a, b[1..], i);
    }
  }

  ghost predicate Distinct<T>(a: seq<T>)
  {
    forall i, j :: 0 <= i < j < |a| ==> a[i] != a[j]
  }

  lemma {:induction false} SubsequenceDistinct<T>(a: seq<T>, b: seq<T>)
    requires Subsequence(a, b) && Distinct(b)
    ensures Distinct(a)
  {
    if a != [] {
      if a[0] == b[0] && Subsequence(a[1..], b[1..]) {
        SubsequenceDistinct(a[1..], b[1..]);
        forall j | 0 < j < |a| ensures a[0] != a[j] {
          SubsequenceElement(a[1..], b[1..], j - 1);
        }
      } else {
        SubsequenceDistinct(a, b[1..]);
      }
    }
  }

  /** The leaves a section enters are among its leaves, in the same order and no more than once each,
      whatever throws. */
  lemma {:induction false} EntersInOrder(s: Section)
    ensures Subsequence(Entered(Runs(s)), Leaves(s))
    decreases s, 0
  {
    var inner := RunsAll(s.body);
    if s.body == [] {
      assert Runs(s) == [Visit([s.id], true, s.throws)] && Entered(Runs(s)) == [[s.id]] + Entered([]);
      SubsequenceItself(Leaves(s));
    } else {
      AllEnterInOrder(s.body);
      if s.throws {
        WrapTruncates(s, inner);
        EnteredPrefix(UpToFirstOk(inner), inner);
        var n := |Entered(UpToFirstOk(inner))|;
        SubsequencePrefix(Entered(inner), LeavesAll(s.body), n);
        assert Entered(inner)[..n] == Entered(UpToFirstOk(inner));
        SubsequencePrefixed(s.id, Entered(UpToFirstOk(inner)), LeavesAll(s.body));
      } else {
        WrapPassesAll(s, inner);
        SubsequencePrefixed(s.id, Entered(inner), LeavesAll(s.body));
      }
    }
  }

  lemma {:induction false} AllEnterInOrder(body: seq<Section>)
    ensures Subsequence(Entered(RunsAll(body)), LeavesAll(body))
    decreases body, 1
  {
    if body != [] {
      EntersInOrder(body[0]);
      AllEnterInOrder(body[1..]);
      EnteredConcat(Runs(body[0]), RunsAll(body[1..]));
      SubsequenceConcat(Entered(Runs(body[0])), Leaves(body[0]), Entered(RunsAll(body[1..])), LeavesAll(body[1..]));
    }
  }

  lemma {:induction false} PrefixedInjective(id: NameAndLocation, a: seq<Path>, b: seq<Path>)
    ensures Prefixed(id, a) == Prefixed(id, b) <==> a == b
  {
    if Prefixed(id, a) == Prefixed(id, b) {
      forall i | 0 <= i < |a| ensures a[i] == b[i] {
        assert Prefixed(id, a)[i][1..] == Prefixed(id, b)[i][1..];
      }
    }
  }

  /** A section enters each of its leaves, in order and once, exactly when neither it nor a section
      below it is failed too soon. */
  lemma {:induction false} LeavesReachedExactly(s: Section)
    ensures Entered(Runs(s)) == Leaves(s) <==> Covered(s.body) && (s.throws ==> EndsLate(s.body))
    decreases s, 0
  {
    if s.body != [] {
      var inner := RunsAll(s.body);
      AllLeavesReachedExactly(s.body);
      EnteredAllAtMost(s.body);
      PrefixedInjective(s.id, Entered(inner), LeavesAll(s.body));
      if s.throws {
        WrapTruncates(s, inner);
        EndsLateExactly(s.body);
        EnteredPrefix(UpToFirstOk(inner), inner);
        PrefixedInjective(s.id, Entered(UpToFirstOk(inner)), LeavesAll(s.body));
      } else {
        WrapPassesAll(s, inner);
      }
    }
  }

  lemma {:induction false} AllLeavesReachedExactly(body: seq<Section>)
    ensures Entered(RunsAll(body)) == LeavesAll(body) <==> Covered(body)
    decreases body, 1
  {
    if body != [] {
      var first, rest := body[0], body[1..];
      LeavesReachedExactly(first);
      AllLeavesReachedExactly(rest);
      EnteredConcat(Runs(first), RunsAll(rest));
      EnteredAtMost(first);
      EnteredAllAtMost(rest);
      ConcatEqual(Entered(Runs(first)), Entered(RunsAll(rest)), Leaves(first), LeavesAll(rest));
      assert Covered(body) <==> Covered(first.body) && (first.throws ==> EndsLate(first.body)) && Covered(rest) by {
        assert forall i :: 1 <= i < |body| ==> body[i] == rest[i-1];
        assert forall i :: 0 <= i < |rest| ==> rest[i] == body[i+1];
      }
    }
  }

  lemma {:induction false} ConcatEqual<T>(a: seq<T>, b: seq<T>, c: seq<T>, d: seq<T>)
    requires |a| <= |c| && |b| <= |d|
    ensures a + b == c + d <==> a == c && b == d
  {
    if a + b == c + d {
      assert |a| == |c|;
      assert a == (a + b)[..|a|] && c == (c + d)[..|c|];
      assert b == (a + b)[|a|..] && d == (c + d)[|c|..];
    }
  }

  /** A test case enters every leaf exactly once, left to right, if and only if `Covered`. */
  lemma {:induction false} TestLeavesReachedExactly(test: Section)
    ensures Entered(TestRuns(test)) == Leaves(test) <==> Covered(test.body)
  {
    LeavesReachedExactly(test.(throws := false));
  }

  // ----- the two ordinary cases -----

  lemma {:induction false} OnlyLeavesThrowCovers(body: seq<Section>)
    requires forall i :: 0 <= i < |body| ==> OnlyLeavesThrow(body[i])
    ensures Covered(body)
  {
    forall i | 0 <= i < |body| ensures Covered(body[i].body) && (body[i].throws ==> EndsLate(body[i].body)) {
      OnlyLeavesThrowCovers(body[i].body);
    }
  }

  /** The sections whose last sub-section throws; each costs a cycle that enters no leaf. */
  function ExtraCycles(body: seq<Section>): nat
  {
    if body == [] then 0
    else ExtraCycles(body[0].body) + ExtraCycles(body[1..]) + (if |body| == 1 && body[0].throws then 1 else 0)
  }

  lemma {:induction false} WrapLength(s: Section, inner: seq<Visit>)
    requires !s.throws
    ensures |Wrap(s, inner)| == |inner| + (if inner == [] || inner[|inner|-1].threw then 1 else 0)
  {
    if inner != [] && (inner[0].threw || |inner| > 1) {
      WrapLength(s, inner[1..]);
    }
  }

  /** The cost of throwing leaves, in cycles. */
  lemma {:induction false} CycleCount(body: seq<Section>)
    requires forall i :: 0 <= i < |body| ==> OnlyLeavesThrow(body[i])
    ensures |RunsAll(body)| + (if body != [] && body[|body|-1].throws then 1 else 0) == |LeavesAll(body)| + ExtraCycles(body)
    ensures body != [] ==> RunsAll(body)[|RunsAll(body)|-1].threw == body[|body|-1].throws
    decreases body, 1
  {
    if body != [] {
      var first, rest := body[0], body[1..];
      SectionCycleCount(first);
      CycleCount(rest);
      WrapLastThrows(first, RunsAll(first.body));
      var all, one := RunsAll(body), Runs(first);
      assert all == one + RunsAll(rest);
      if rest == [] {
        assert all == one;
      } else {
        assert body[|body|-1] == rest[|rest|-1];
        assert all[|all|-1] == RunsAll(rest)[|RunsAll(rest)|-1];
      }
    }
  }

  lemma {:induction false} SectionCycleCount(s: Section)
    requires OnlyLeavesThrow(s)
    ensures |Runs(s)| == |Leaves(s)| + ExtraCycles(s.body)
    decreases s, 0
  {
    CycleCount(s.body);
    if s.body != [] {
      WrapLength(s, RunsAll(s.body));
    }
  }

  lemma {:induction false} TestCycleCount(test: Section)
    requires OnlyLeavesThrow(test.(throws := false))
    ensures |TestRuns(test)| == |Leaves(test)| + ExtraCycles(test.body)
  {
    SectionCycleCount(test.(throws := false));
  }

  lemma {:induction false} NothingThrowsAllLeaves(body: seq<Section>)
    requires forall i :: 0 <= i < |body| ==> NothingThrows(body[i])
    ensures forall k :: 0 <= k < |RunsAll(body)| ==> RunsAll(body)[k].leaf && !RunsAll(body)[k].threw
  {
    if body != [] {
      NothingThrowsAllLeaves(body[0].body);
      NothingThrowsAllLeaves(body[1..]);
      WrapKeepsLeaves(body[0], RunsAll(body[0].body));
    }
  }

  lemma {:induction false} WrapKeepsLeaves(s: Section, inner: seq<Visit>)
    requires !s.throws && (inner == [] <==> s.body == [])
    requires forall k :: 0 <= k < |inner| ==> inner[k].leaf && !inner[k].threw
    ensures forall k :: 0 <= k < |Wrap(s, inner)| ==> Wrap(s, inner)[k].leaf && !Wrap(s, inner)[k].threw
  {
    if |inner| > 1 {
      WrapKeepsLeaves(s, inner[1..]);
    }
  }

  lemma {:induction false} EnteredWhenAllLeaves(vs: seq<Visit>)
    requires forall k :: 0 <= k < |vs| ==> vs[k].leaf
    ensures |Entered(vs)| == |vs|
    ensures forall k :: 0 <= k < |vs| ==> Entered(vs)[k] == vs[k].path
  {
    if vs != [] {
      EnteredWhenAllLeaves(vs[1..]);
    }
  }

  /** Without exceptions there are as many cycles as leaves, and cycle k goes to the k-th leaf. */
  lemma {:induction false} CycleKEntersLeafK(test: Section)
    requires NothingThrows(test.(throws := false))
    ensures |TestRuns(test)| == |Leaves(test)|
    ensures forall k :: 0 <= k < |Leaves(test)| ==>
      TestRuns(test)[k] == Visit(Leaves(test)[k], true, false)
  {
    var t := test.(throws := false);
    NothingThrowsAllLeaves([t]);
    assert RunsAll([t]) == Runs(t) + RunsAll([]) == Runs(t);
    NothingThrowsCovers(t.body);
    TestLeavesReachedExactly(test);
    EnteredWhenAllLeaves(TestRuns(test));
  }

  lemma {:induction false} NothingThrowsCovers(body: seq<Section>)
    requires forall i :: 0 <= i < |body| ==> NothingThrows(body[i])
    ensures Covered(body)
  {
    forall i | 0 <= i < |body| ensures Covered(body[i].body) && (body[i].throws ==> EndsLate(body[i].body)) {
      NothingThrowsCovers(body[i].body);
    }
  }

  /** With distinct siblings no leaf path occurs twice, so "in the list" is "exactly once". */
  lemma {:induction false} LeavesDistinct(body: seq<Section>)
    requires DistinctSiblings(body)
    ensures forall i, j :: 0 <= i < j < |LeavesAll(body)| ==> LeavesAll(body)[i] != LeavesAll(body)[j]
  {
    if body != [] {
      LeavesDistinct(body[0].body);
      LeavesDistinct(body[1..]);
      LeavesStartWith(body[1..]);
      var first, rest := Leaves(body[0]), LeavesAll(body[1..]);
      var inner := LeavesAll(body[0].body);
      forall i, j | 0 <= i < j < |first| ensures first[i] != first[j] {
        assert first[i][1..] == inner[i] && first[j][1..] == inner[j];
      }
      forall i, j | 0 <= i < |first| && 0 <= j < |rest| ensures first[i] != rest[j] {
        assert first[i][0] == body[0].id;
      }
    }
  }

  lemma {:induction false} LeavesStartWith(body: seq<Section>)
    ensures forall j :: 0 <= j < |LeavesAll(body)| ==>
      LeavesAll(body)[j] != [] && exists i :: 0 <= i < |body| && LeavesAll(body)[j][0] == body[i].id
  {
    if body != [] {
      LeavesStartWith(body[1..]);
      var first, rest := Leaves(body[0]), LeavesAll(body[1..]);
      forall j | 0 <= j < |LeavesAll(body)|
        ensures LeavesAll(body)[j] != [] && exists i :: 0 <= i < |body| && LeavesAll(body)[j][0] == body[i].id
      {
        if j < |first| {
          assert LeavesAll(body)[j][0] == body[0].id;
        } else {
          assert LeavesAll(body)[j] == rest[j - |first|];
          var i :| 0 <= i < |body[1..]| && rest[j - |first|][0] == body[1..][i].id;
          assert body[i+1] == body[1..][i];
        }
      }
    }
  }

  /** A test case that loses a leaf: the section P throws after its two sub-sections A and B, so
      the first cycle, through A, fails P, and B is never entered. */
  lemma {:induction false} ThrowingParentLosesLeaf(a: NameAndLocation, b: NameAndLocation, p: NameAndLocation, t: NameAndLocation)
    ensures
      var test := Section(t, [Section(p, [Section(a, [], false), Section(b, [], false)], true)], false);
      Entered(TestRuns(test)) != Leaves(test)
  {
    var sp := Section(p, [Section(a, [], false), Section(b, [], false)], true);
    var test := Section(t, [sp], false);
    assert !EndsLate(sp.body);
    assert test.body[0] == sp;
    TestLeavesReachedExactly(test);
  }
}
