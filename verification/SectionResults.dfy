/** What the log of a whole run says about the leaves of the test case. */
module SectionResults {
  import opened SectionTree
  import opened SectionRun
  import opened Common

  /** The entries of a log that are leaves of the test case, in order. */
  function LeafEntries(log: seq<Path>, leaves: seq<Path>): seq<Path>
  {
    if log == [] then []
    else (if log[0] in leaves then [log[0]] else []) + LeafEntries(log[1..], leaves)
  }

  /** `path` leads from the section `s` to a section at or below it, which is a leaf or not. */
  ghost predicate LeadsTo(s: Section, path: Path, leaf: bool)
    decreases s
  {
    && path != [] && path[0] == s.id
    && (if |path| == 1 then leaf == (s.body == [])
        else exists i :: 0 <= i < |s.body| && LeadsTo(s.body[i], path[1..], leaf))
  }

  ghost predicate AllLeadTo(body: seq<Section>, vs: seq<Visit>)
  {
    forall k :: 0 <= k < |vs| ==> exists i :: 0 <= i < |body| && LeadsTo(body[i], vs[k].path, vs[k].leaf)
  }

  lemma {:induction false} VisitsLeadTo(s: Section)
    ensures forall k :: 0 <= k < |Runs(s)| ==> LeadsTo(s, Runs(s)[k].path, Runs(s)[k].leaf)
    decreases s, 0
  {
    AllVisitsLeadTo(s.body);
    WrapLeadsTo(s, RunsAll(s.body));
  }

  lemma {:induction false} AllVisitsLeadTo(body: seq<Section>)
    ensures AllLeadTo(body, RunsAll(body))
    decreases body, 1
  {
    if body != [] {
      VisitsLeadTo(body[0]);
      AllVisitsLeadTo(body[1..]);
      var first, rest := Runs(body[0]), RunsAll(body[1..]);
      var all: seq<Visit> := first + rest;
      forall k | 0 <= k < |all|
        ensures exists i :: 0 <= i < |body| && LeadsTo(body[i], all[k].path, all[k].leaf)
      {
        if k < |first| {
          assert LeadsTo(body[0], all[k].path, all[k].leaf);
        } else {
          var v := rest[k - |first|];
          var i :| 0 <= i < |body[1..]| && LeadsTo(body[1..][i], v.path, v.leaf);
          assert LeadsTo(body[i+1], v.path, v.leaf);
        }
      }
    }
  }

  lemma {:induction false} WrapLeadsTo(s: Section, inner: seq<Visit>)
    requires AllLeadTo(s.body, inner)
    ensures forall k :: 0 <= k < |Wrap(s, inner)| ==> LeadsTo(s, Wrap(s, inner)[k].path, Wrap(s, inner)[k].leaf)
  {
    if inner != [] {
      var v := inner[0];
      var path := [s.id] + v.path;
      assert path[1..] == v.path;
      var i :| 0 <= i < |s.body| && LeadsTo(s.body[i], v.path, v.leaf);
      assert LeadsTo(s, path, v.leaf);
      WrapLeadsTo(s, inner[1..]);
    }
  }

  /** Distinct siblings make a path lead to one section only. */
  lemma {:induction false} LeafIffListed(s: Section, path: Path, leaf: bool)
    requires DistinctSiblings(s.body) && LeadsTo(s, path, leaf)
    ensures leaf <==> path in Leaves(s)
    decreases s
  {
    if s.body == [] {
      assert path == [s.id];
    } else {
      var inner := LeavesAll(s.body);
      if |path| == 1 {
        LeavesStartWith(s.body);
        assert forall j :: 0 <= j < |inner| ==> Leaves(s)[j][1..] == inner[j] != [];
      } else {
        var i :| 0 <= i < |s.body| && LeadsTo(s.body[i], path[1..], leaf);
        LeafIffListed(s.body[i], path[1..], leaf);
        ListedBelow(s.body, i, path[1..]);
        if path in Leaves(s) {
          var j :| 0 <= j < |inner| && Leaves(s)[j] == path;
          assert inner[j] == path[1..];
        }
        if path[1..] in inner {
          var j :| 0 <= j < |inner| && inner[j] == path[1..];
          assert Leaves(s)[j] == [s.id] + path[1..] == path;
        }
      }
    }
  }

  lemma {:induction false} ListedBelow(body: seq<Section>, i: nat, path: Path)
    requires DistinctSiblings(body) && i < |body| && path != [] && path[0] == body[i].id
    ensures path in LeavesAll(body) <==> path in Leaves(body[i])
  {
    if i == 0 {
      LeavesStartWith(body[1..]);
      assert path !in LeavesAll(body[1..]) by {
        assert forall k :: 0 <= k < |body[1..]| ==> body[1..][k] == body[k+1];
      }
    } else {
      assert path !in Leaves(body[0]) by {
        LeavesStartWith([body[0]]);
        assert LeavesAll([body[0]]) == Leaves(body[0]) + [];
      }
      assert body[1..][i-1] == body[i];
      ListedBelow(body[1..], i - 1, path);
    }
  }

  /** On the way to a section there are only sections that are not leaves. */
  lemma {:induction false} WayLeadsTo(s: Section, path: Path, leaf: bool, k: nat)
    requires LeadsTo(s, path, leaf) && 0 < k < |path|
    ensures LeadsTo(s, path[..k], false)
    decreases s
  {
    var i :| 0 <= i < |s.body| && LeadsTo(s.body[i], path[1..], leaf);
    if k > 1 {
      WayLeadsTo(s.body[i], path[1..], leaf, k - 1);
      assert path[..k][1..] == path[1..][..k-1];
    }
  }

  lemma {:induction false} ChainAt(p: Path, path: Path, k: nat)
    requires k < |path|
    ensures Chain(p, path)[k] == p + path[..k+1]
    decreases |path|
  {
    if k > 0 {
      ChainAt(p + [path[0]], path[1..], k - 1);
      assert p + [path[0]] + path[1..][..k] == p + path[..k+1];
    } else {
      assert path[..1] == [path[0]];
    }
  }

  lemma {:induction false} LeafEntriesConcat(a: seq<Path>, b: seq<Path>, leaves: seq<Path>)
    ensures LeafEntries(a + b, leaves) == LeafEntries(a, leaves) + LeafEntries(b, leaves)
  {
    if a == [] {
      assert a + b == b;
    } else {
      assert (a + b)[1..] == a[1..] + b;
      LeafEntriesConcat(a[1..], b, leaves);
      Reassociate(if a[0] in leaves then [a[0]] else [], LeafEntries(a[1..], leaves), LeafEntries(b, leaves));
    }
  }

  lemma {:induction false} NoLeafEntries(log: seq<Path>, leaves: seq<Path>)
    requires forall k :: 0 <= k < |log| ==> log[k] !in leaves
    ensures LeafEntries(log, leaves) == []
  {
    if log != [] {
      NoLeafEntries(log[1..], leaves);
    }
  }

  /** The sections entered in one cycle include one leaf, its innermost section, or none. */
  lemma {:induction false} OneLeafPerCycle(s: Section, v: Visit)
    requires DistinctSiblings(s.body) && LeadsTo(s, v.path, v.leaf)
    ensures LeafEntries(Chain([], v.path), Leaves(s)) == if v.leaf then [v.path] else []
  {
    var chain, n := Chain([], v.path), |v.path| - 1;
    forall k | 0 <= k < n ensures chain[..n][k] !in Leaves(s) {
      ChainAt([], v.path, k);
      assert chain[..n][k] == v.path[..k+1];
      WayLeadsTo(s, v.path, v.leaf, k + 1);
      LeafIffListed(s, v.path[..k+1], false);
    }
    ChainAt([], v.path, n);
    LeafIffListed(s, v.path, v.leaf);
    assert v.path[..n+1] == v.path && [] + v.path == v.path;
    assert chain[n] == v.path;
    NoLeafEntries(chain[..n], Leaves(s));
    LeafEntriesConcat(chain[..n], [v.path], Leaves(s));
    assert chain == chain[..n] + [v.path];
  }

  lemma {:induction false} EnteredLast(vs: seq<Visit>)
    requires vs != []
    ensures
      var n := |vs| - 1;
      Entered(vs) == Entered(vs[..n]) + (if vs[n].leaf then [vs[n].path] else [])
  {
    var n := |vs| - 1;
    EnteredConcat(vs[..n], [vs[n]]);
    assert vs == vs[..n] + [vs[n]];
    assert Entered([vs[n]]) == (if vs[n].leaf then [vs[n].path] else []) + Entered([]);
  }

  lemma {:induction false} LogHoldsEntered(s: Section, vs: seq<Visit>)
    requires DistinctSiblings(s.body)
    requires forall k :: 0 <= k < |vs| ==> LeadsTo(s, vs[k].path, vs[k].leaf)
    ensures LeafEntries(Log(vs), Leaves(s)) == Entered(vs)
  {
    if vs != [] {
      var n := |vs| - 1;
      LogHoldsEntered(s, vs[..n]);
      OneLeafPerCycle(s, vs[n]);
      LeafEntriesConcat(Log(vs[..n]), Chain([], vs[n].path), Leaves(s));
      EnteredLast(vs);
    }
  }

  /** The run of any test case: the leaves it enters are all its leaves, left to right and each
      once, if and only if no section that throws still had a leaf to run. */
  lemma {:induction false} LeavesOfRun(test: Section)
    requires DistinctSiblings(test.body)
    ensures LeafEntries(Log(TestRuns(test)), Leaves(test)) == Leaves(test) <==> Covered(test.body)
    ensures LeafEntries(Log(TestRuns(test)), Leaves(test)) == Entered(TestRuns(test))
  {
    var t := test.(throws := false);
    VisitsLeadTo(t);
    assert Leaves(t) == Leaves(test);
    LogHoldsEntered(t, Runs(t));
    TestLeavesReachedExactly(test);
  }

  lemma {:induction false} DistinctLeaves(test: Section)
    requires DistinctSiblings(test.body)
    ensures Distinct(Leaves(test))
  {
    var inner, ls := LeavesAll(test.body), Leaves(test);
    LeavesDistinct(test.body);
    if test.body != [] {
      forall i, j | 0 <= i < j < |ls| ensures ls[i] != ls[j] {
        assert ls[i][1..] == inner[i] && ls[j][1..] == inner[j];
      }
    }
  }

  /** Whatever throws, no leaf is entered twice in a run, and none before one that is left of it. */
  lemma {:induction false} NoLeafTwice(test: Section)
    requires DistinctSiblings(test.body)
    ensures
      var entered := LeafEntries(Log(TestRuns(test)), Leaves(test));
      Subsequence(entered, Leaves(test)) && Distinct(entered)
  {
    LeavesOfRun(test);
    EntersInOrder(test.(throws := false));
    assert Leaves(test.(throws := false)) == Leaves(test);
    DistinctLeaves(test);
    SubsequenceDistinct(Entered(TestRuns(test)), Leaves(test));
  }

  /** In particular when only leaves throw; the run then takes one cycle for each leaf and one more
      for each section whose last sub-section throws. */
  lemma {:induction false} ThrowingLeavesAreEnteredOnce(test: Section)
    requires DistinctSiblings(test.body) && OnlyLeavesThrow(test.(throws := false))
    ensures LeafEntries(Log(TestRuns(test)), Leaves(test)) == Leaves(test)
    ensures |TestRuns(test)| == |Leaves(test)| + ExtraCycles(test.body)
  {
    OnlyLeavesThrowCovers(test.(throws := false).body);
    LeavesOfRun(test);
    TestCycleCount(test);
  }
}
