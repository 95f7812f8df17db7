/** Running a test case: cycle after cycle through its body until its tracker is complete. */
module SectionRun {
  import opened SectionTree
  import opened Trackers
  import opened SectionProgress

  /** The paths of the sections on the way from below `p` down `path`, outermost first. */
  function Chain(p: Path, path: Path): (r: seq<Path>)
    ensures |r| == |path|
    decreases |path|
  {
    if path == [] then [] else [p + [path[0]]] + Chain(p + [path[0]], path[1..])
  }

  /** The sections entered below `p` in the first of the cycles `vs`. */
  function FirstChain(p: Path, vs: seq<Visit>): seq<Path>
  {
    if vs == [] then [] else Chain(p, vs[0].path)
  }

  lemma {:induction false} Rejoin<T>(a: seq<T>, c: T, x: seq<T>)
    requires a != [] && a[|a|-1] == c
    ensures a + x == a[..|a|-1] + ([c] + x)
  {}

  lemma {:induction false} ChainOfVisit(m: Forest, m1: Forest, p: Path, s: Section)
    requires Opened(m, m1, p, s)
    ensures
      var c := ChildPath(p, s);
      var v, inner := Remaining(m, c, s)[0], RemainingAll(m1, c, s.body);
      Chain(p, v.path) == [c] + FirstChain(c, inner)
  {
    var v, inner := Remaining(m, ChildPath(p, s), s)[0], RemainingAll(m1, ChildPath(p, s), s.body);
    assert v.path[1..] == if inner == [] then [] else inner[0].path;
  }

  /** The section entered last, and those below it, are on the way of the visit. */
  lemma {:induction false} EnteredOnTheWay(entered: seq<Path>, m: Forest, m1: Forest, p: Path, s: Section)
    requires Opened(m, m1, p, s) && entered != [] && entered[|entered|-1] == ChildPath(p, s)
    ensures
      var c := ChildPath(p, s);
      entered + FirstChain(c, RemainingAll(m1, c, s.body)) == entered[..|entered|-1] + Chain(p, Remaining(m, c, s)[0].path)
  {
    ChainOfVisit(m, m1, p, s);
    Rejoin(entered, ChildPath(p, s), FirstChain(ChildPath(p, s), RemainingAll(m1, ChildPath(p, s), s.body)));
  }

  lemma {:induction false} SkippedIsNotOpen(m: Forest, p: Path, body: seq<Section>, i: nat, entered: bool)
    requires WellLinked(m) && i < |body| && Scanning(m, p, body, i, entered)
    requires entered || Done(m, ChildPath(p, body[i]))
    ensures !Look(AddChildAt(m, p, body[i].id), ChildPath(p, body[i])).state.IsOpen()
  {
    AddChildLooks(m, p, body[i].id);
    if entered {
      assert body[i..][0] == body[i];
      assert Untouched(m, ChildPath(p, body[i..][0]));
      assert Below(ChildPath(p, body[i]), ChildPath(p, body[i]));
    }
  }

  /** Whether the section reached is opened: exactly when no cycle was completed yet and it is not done. */
  lemma {:induction false} SectionReached(m: Forest, p: Path, body: seq<Section>, i: nat, completed: bool)
    requires WellLinked(m) && i < |body| && Scanning(m, p, body, i, completed) && AncestorsOpen(m, p)
    ensures
      var s, c := body[i], ChildPath(p, body[i]);
      var added := AddChildAt(m, p, s.id);
      var m1 := OpenAt(added, c);
      if completed || Done(m, c) then
        (completed || added[c].state.IsComplete()) && !added[c].state.IsOpen()
      else
        && !added[c].state.IsComplete() && m1[c].state.IsOpen()
        && Scanning(m1, c, s.body, 0, false) && AncestorsOpen(m1, c) && Opened(m, m1, p, s)
  {
    AddChildLooks(m, p, body[i].id);
    if completed || Done(m, ChildPath(p, body[i])) {
      SkippedIsNotOpen(m, p, body, i, completed);
    } else {
      EnterStep(m, p, body, i);
    }
  }

  /** What opening the tracker of a test case at the root does. */
  lemma {:induction false} EnterTop(m: Forest, test: Section)
    requires WellLinked(m) && [] in m
    requires AtRest(m, [test.id], test.(throws := false)) && !Done(m, [test.id])
    ensures !Done(AddChildAt(m, [], test.id), [test.id])
    ensures
      var c, m1 := [test.id], OpenAt(AddChildAt(m, [], test.id), [] + [test.id]);
      Scanning(m1, c, test.body, 0, false) && AncestorsOpen(m1, c) && Opened(m, m1, [], test.(throws := false))
  {
    assert ChildPath([], test.(throws := false)) == [test.id];
    AddChildLooks(m, [], test.id);
    EnterAt(m, [], test.(throws := false));
  }

  /** What the reporter hears of the cycles `vs` of a test case: every section entered, where it is. */
  function Log(vs: seq<Visit>): seq<Path>
  {
    if vs == [] then [] else Log(vs[..|vs|-1]) + Chain([], vs[|vs|-1].path)
  }

  lemma {:induction false} LogStep(vs: seq<Visit>, k: nat)
    requires k < |vs|
    ensures Log(vs[..k+1]) == Log(vs[..k]) + Chain([], vs[k].path)
  {
    assert vs[..k+1][..k] == vs[..k];
  }

  lemma {:induction false} NextCycle(vs: seq<Visit>, k: nat, rest: seq<Visit>)
    requires k < |vs| && vs[k..] == [vs[k]] + rest
    ensures rest == vs[k+1..]
  {
    assert vs[k..][1..] == vs[k+1..];
  }

  lemma {:induction false} CycleTaken(entered: seq<Path>, vs: seq<Visit>, k: nat, rest: seq<Visit>)
    requires k < |vs| && vs[k..] == [vs[k]] + rest
    ensures rest == vs[k+1..]
    ensures entered + Log(vs[..k]) + Chain([], vs[k].path) == entered + Log(vs[..k+1])
  {
    LogStep(vs, k);
    NextCycle(vs, k, rest);
  }

  class RunContext {
    const trackerContext: TrackerContext
    var testCaseTracker: SectionTracker?
    var activeSections: seq<SectionTracker>
    var unfinishedSections: seq<NameAndLocation>
    var logicError: bool            // an "Illogical state" was met when closing a tracker
    ghost var entered: seq<Path>    // where the sections reported as starting are, in order

    constructor ()
      ensures fresh(trackerContext)
      ensures activeSections == [] && unfinishedSections == [] && !logicError && entered == []
    {
      trackerContext := new TrackerContext();
      testCaseTracker := null;
      activeSections, unfinishedSections, logicError, entered := [], [], false, [];
    }

    /** Nothing that was there has been replaced, and anything added is new. */
    twostate predicate OnlyAdded()
      reads trackerContext
    {
      && (forall t :: t in old(trackerContext.trackers) ==> t in trackerContext.trackers)
      && (forall t :: t in trackerContext.trackers ==> t in old(trackerContext.trackers) || fresh(t))
    }

    ghost predicate In(p: Path)
      reads this, trackerContext, trackerContext.trackers
    {
      trackerContext.Valid() && trackerContext.currentTracker != null && trackerContext.Here() == p
    }

    /** The innermost active section is the one at `c`. */
    ghost predicate Innermost(c: Path)
      reads this, trackerContext, trackerContext.trackers
    {
      activeSections != [] &&
      var t := activeSections[|activeSections|-1];
      t in trackerContext.trackers && t.Placed(trackerContext) && t.path == c
    }

    method SectionStarted(id: NameAndLocation) returns (included: bool)
      requires trackerContext.Valid() && trackerContext.currentTracker != null
      modifies this`activeSections, this`entered, trackerContext`nodes, trackerContext`trackers, trackerContext`at, trackerContext`currentTracker, trackerContext.trackers
      ensures trackerContext.Valid() && trackerContext.currentTracker != null && OnlyAdded()
      ensures
        var p, c := old(trackerContext.Here()), old(trackerContext.Here()) + [id];
        var m := AddChildAt(old(trackerContext.nodes), p, id);
        var toOpen := !old(trackerContext.CompletedACycle()) && !m[c].state.IsComplete();
        && trackerContext.nodes == (if toOpen then OpenAt(m, c) else m)
        && trackerContext.Here() == (if toOpen then c else p)
        && included == trackerContext.nodes[c].state.IsOpen()
        && (if included then
              && |activeSections| == |old(activeSections)| + 1 && old(activeSections) <= activeSections
              && Innermost(c) && entered == old(entered) + [c]
            else
              activeSections == old(activeSections) && entered == old(entered))
    {
      var sectionTracker := SectionTracker.Acquire(trackerContext, id);
      if !sectionTracker.IsOpen() {
        return false;
      }
      activeSections := activeSections + [sectionTracker];
      entered := entered + [sectionTracker.path];
      included := true;
    }

    /** Closes the innermost active section, if any. */
    method SectionEnded()
      requires trackerContext.Valid() && trackerContext.currentTracker != null
      requires activeSections != [] ==> trackerContext.Here() != [] && Innermost(trackerContext.Here())
      modifies this`activeSections, this`logicError, trackerContext`nodes, trackerContext`currentTracker, trackerContext`runState, trackerContext.trackers`runState
      ensures trackerContext.Valid()
      ensures trackerContext.trackers == old(trackerContext.trackers)
      ensures old(activeSections) == [] ==>
        && activeSections == [] && logicError == old(logicError)
        && trackerContext.currentTracker == old(trackerContext.currentTracker)
        && trackerContext.nodes == old(trackerContext.nodes) && trackerContext.runState == old(trackerContext.runState)
      ensures old(activeSections) != [] ==>
        var c, m := old(trackerContext.Here()), old(trackerContext.nodes);
        && activeSections == old(activeSections)[..|old(activeSections)|-1]
        && logicError == (old(logicError) || !m[c].state.IsOpen())
        && (m[c].state.IsOpen() ==>
              && trackerContext.nodes == SetNode(m, c, ClosedState(m, c))
              && trackerContext.currentTracker != null && trackerContext.Here() == Parent(c)
              && trackerContext.CompletedACycle())
    {
      if activeSections != [] {
        var t := activeSections[|activeSections|-1];
        var ok := t.Close();
        logicError := logicError || !ok;
        activeSections := activeSections[..|activeSections|-1];
      }
    }

    /** A section left by an exception: the first one to be left is where it was thrown. */
    method SectionEndedEarly(id: NameAndLocation)
      requires trackerContext.Valid() && trackerContext.currentTracker != null
      requires trackerContext.Here() != [] && Innermost(trackerContext.Here())
      modifies this`activeSections, this`unfinishedSections, this`logicError, trackerContext`nodes, trackerContext`currentTracker, trackerContext`runState, trackerContext.trackers`runState
      ensures trackerContext.Valid()
      ensures trackerContext.trackers == old(trackerContext.trackers)
      ensures unfinishedSections == old(unfinishedSections) + [id]
      ensures activeSections == old(activeSections)[..|old(activeSections)|-1]
      ensures
        var c, m := old(trackerContext.Here()), old(trackerContext.nodes);
        if old(unfinishedSections) == [] then
          && logicError == old(logicError)
          && trackerContext.nodes == FailAt(m, c)
          && trackerContext.currentTracker != null && trackerContext.Here() == Parent(c)
          && trackerContext.CompletedACycle()
        else
          && logicError == (old(logicError) || !m[c].state.IsOpen())
          && (m[c].state.IsOpen() ==>
                && trackerContext.nodes == SetNode(m, c, ClosedState(m, c))
                && trackerContext.currentTracker != null && trackerContext.Here() == Parent(c)
                && trackerContext.CompletedACycle())
    {
      FailOrClose(activeSections[|activeSections|-1]);
      activeSections, unfinishedSections := activeSections[..|activeSections|-1], unfinishedSections + [id];
    }

    method FailOrClose(t: SectionTracker)
      requires trackerContext.Valid() && trackerContext.currentTracker != null
      requires trackerContext.Here() != [] && t.Placed(trackerContext) && t.path == trackerContext.Here()
      modifies this`logicError, trackerContext`nodes, trackerContext`currentTracker, trackerContext`runState, trackerContext.trackers`runState
      ensures trackerContext.Valid()
      ensures
        var c, m := old(trackerContext.Here()), old(trackerContext.nodes);
        if unfinishedSections == [] then
          && logicError == old(logicError)
          && trackerContext.nodes == FailAt(m, c)
          && trackerContext.currentTracker != null && trackerContext.Here() == Parent(c)
          && trackerContext.CompletedACycle()
        else
          && logicError == (old(logicError) || !m[c].state.IsOpen())
          && (m[c].state.IsOpen() ==>
                && trackerContext.nodes == SetNode(m, c, ClosedState(m, c))
                && trackerContext.currentTracker != null && trackerContext.Here() == Parent(c)
                && trackerContext.CompletedACycle())
    {
      if unfinishedSections == [] {
        t.Fail();
      } else {
        var ok := t.Close();
        logicError := logicError || !ok;
      }
    }

    /** The end of an entered section, on the way out of it normally or by an exception. */
    method LeaveSection(s: Section, ghost c: Path, thrownBelow: bool)
      requires In(c) && c != [] && Innermost(c)
      requires thrownBelow <==> unfinishedSections != []
      requires (s.throws && !thrownBelow) || trackerContext.nodes[c].state.IsOpen()
      modifies this`activeSections, this`unfinishedSections, this`logicError, trackerContext`nodes, trackerContext`currentTracker, trackerContext`runState, trackerContext.trackers`runState
      ensures In(Parent(c)) && OnlyAdded() && trackerContext.CompletedACycle()
      ensures logicError == old(logicError)
      ensures activeSections == old(activeSections)[..|old(activeSections)|-1]
      ensures unfinishedSections != [] <==> (thrownBelow || s.throws)
      ensures trackerContext.nodes == LeftAt(old(trackerContext.nodes), c, s.throws, thrownBelow)
    {
      if thrownBelow || s.throws {
        SectionEndedEarly(s.id);
      } else {
        SectionEnded();
      }
    }

    /** A `SECTION` of the test body, reached as the `i`-th one of the body of the section at `p`. */
    method RunSection(s: Section, ghost p: Path, ghost body: seq<Section>, ghost i: nat) returns (threw: bool)
      requires In(p) && unfinishedSections == []
      requires i < |body| && body[i] == s && DistinctSiblings(body)
      requires Scanning(trackerContext.nodes, p, body, i, trackerContext.CompletedACycle())
      requires AncestorsOpen(trackerContext.nodes, p)
      modifies this`activeSections, this`unfinishedSections, this`logicError, this`entered, trackerContext, trackerContext.trackers
      ensures In(p) && OnlyAdded()
      ensures activeSections == old(activeSections) && logicError == old(logicError)
      ensures threw <==> unfinishedSections != []
      ensures
        var c, m := ChildPath(p, s), old(trackerContext.nodes);
        if old(trackerContext.CompletedACycle()) || Done(m, c) then
          && !threw && entered == old(entered)
          && trackerContext.CompletedACycle() == old(trackerContext.CompletedACycle())
          && trackerContext.nodes == AddChildAt(m, p, s.id)
        else
          var v := Remaining(m, c, s)[0];
          && threw == v.threw && entered == old(entered) + Chain(p, v.path)
          && trackerContext.CompletedACycle()
          && TookCycle(m, trackerContext.nodes, p, s, v)
      decreases s, 1
    {
      ghost var m := trackerContext.nodes;
      var included := StartSection(s, p, body, i);
      threw := false;
      if included {
        threw := RunIncluded(s, p, m);
      }
    }

    /** The start of the section: it is included unless it is done or comes too late. */
    method StartSection(s: Section, ghost p: Path, ghost body: seq<Section>, ghost i: nat) returns (included: bool)
      requires In(p) && i < |body| && body[i] == s
      requires Scanning(trackerContext.nodes, p, body, i, trackerContext.CompletedACycle())
      requires AncestorsOpen(trackerContext.nodes, p)
      modifies this`activeSections, this`entered, trackerContext`nodes, trackerContext`trackers, trackerContext`at, trackerContext`currentTracker, trackerContext.trackers
      ensures OnlyAdded() && trackerContext.CompletedACycle() == old(trackerContext.CompletedACycle())
      ensures included <==> !trackerContext.CompletedACycle() && !Done(old(trackerContext.nodes), ChildPath(p, s))
      ensures
        var c, m := ChildPath(p, s), old(trackerContext.nodes);
        if included then
          && In(c) && Innermost(c) && entered == old(entered) + [c]
          && |activeSections| == |old(activeSections)| + 1 && old(activeSections) <= activeSections
          && Scanning(trackerContext.nodes, c, s.body, 0, false) && AncestorsOpen(trackerContext.nodes, c)
          && Opened(m, trackerContext.nodes, p, s)
        else
          && In(p) && entered == old(entered) && activeSections == old(activeSections)
          && trackerContext.nodes == AddChildAt(m, p, s.id)
    {
      SectionReached(trackerContext.nodes, p, body, i, trackerContext.CompletedACycle());
      included := SectionStarted(s.id);
    }

    /** The section itself, once it is known to be run in this cycle. */
    method RunIncluded(s: Section, ghost p: Path, ghost m: Forest) returns (threw: bool)
      requires In(ChildPath(p, s)) && !trackerContext.CompletedACycle() && unfinishedSections == []
      requires DistinctSiblings(s.body)
      requires Innermost(ChildPath(p, s)) && entered != [] && entered[|entered|-1] == ChildPath(p, s)
      requires Scanning(trackerContext.nodes, ChildPath(p, s), s.body, 0, false)
      requires AncestorsOpen(trackerContext.nodes, ChildPath(p, s))
      requires Opened(m, trackerContext.nodes, p, s)
      modifies this`activeSections, this`unfinishedSections, this`logicError, this`entered, trackerContext, trackerContext.trackers
      ensures In(p) && OnlyAdded() && trackerContext.CompletedACycle()
      ensures activeSections == old(activeSections)[..|old(activeSections)|-1] && logicError == old(logicError)
      ensures threw <==> unfinishedSections != []
      ensures
        var v := Remaining(m, ChildPath(p, s), s)[0];
        && threw == v.threw && entered == old(entered)[..|old(entered)|-1] + Chain(p, v.path)
        && TookCycle(m, trackerContext.nodes, p, s, v)
      decreases s, 0
    {
      ghost var m1 := trackerContext.nodes;
      EnteredOnTheWay(entered, m, m1, p, s);
      threw := RunBody(s.body, ChildPath(p, s));
      activeSections[|activeSections|-1].StillPlaced(trackerContext);
      LeaveStep(m, m1, trackerContext.nodes, p, s, threw);
      LeaveSection(s, ChildPath(p, s), threw);
      threw := threw || s.throws;
    }

    /** The body of the section, or test case, at `p`. */
    method RunBody(body: seq<Section>, ghost p: Path) returns (threw: bool)
      requires In(p) && !trackerContext.CompletedACycle() && unfinishedSections == []
      requires DistinctSiblings(body)
      requires Scanning(trackerContext.nodes, p, body, 0, false)
      requires AncestorsOpen(trackerContext.nodes, p)
      modifies this`activeSections, this`unfinishedSections, this`logicError, this`entered, trackerContext, trackerContext.trackers
      ensures In(p) && OnlyAdded()
      ensures activeSections == old(activeSections) && logicError == old(logicError)
      ensures threw <==> unfinishedSections != []
      ensures RanBody(old(trackerContext.nodes), trackerContext.nodes, p, body, threw)
      ensures
        var vs := RemainingAll(old(trackerContext.nodes), p, body);
        && (trackerContext.CompletedACycle() <==> vs != [])
        && entered == old(entered) + FirstChain(p, vs)
      decreases body, 2
    {
      ghost var m0 := trackerContext.nodes;
      ghost var vs := RemainingAll(m0, p, body);
      SoFarStart(m0, p, body);
      threw := false;
      var i := 0;
      while i < |body| && !threw
        invariant 0 <= i <= |body|
        invariant In(p) && OnlyAdded()
        invariant activeSections == old(activeSections) && logicError == old(logicError)
        invariant threw <==> unfinishedSections != []
        invariant SoFar(m0, trackerContext.nodes, p, body, i, trackerContext.CompletedACycle(), threw)
        invariant entered == old(entered) + (if trackerContext.CompletedACycle() then FirstChain(p, vs) else [])
        decreases |body| - i
      {
        ghost var m := trackerContext.nodes;
        ghost var before := trackerContext.CompletedACycle();
        StillOpenAbove(m0, m, p);
        threw := RunSection(body[i], p, body, i);
        if before || Done(m, ChildPath(p, body[i])) {
          SoFarSkip(m0, m, p, body, i, before);
        } else {
          SoFarEnter(m0, m, trackerContext.nodes, p, body, i, Remaining(m, ChildPath(p, body[i]), body[i])[0]);
        }
        i := i + 1;
      }
      SoFarEnd(m0, trackerContext.nodes, p, body, i, trackerContext.CompletedACycle(), threw);
    }

    /** Ends, for the reporter, the sections an exception has left; no tracker is touched any more. */
    method HandleUnfinishedSections()
      requires trackerContext.Valid() && trackerContext.currentTracker != null && activeSections == []
      modifies this`activeSections, this`unfinishedSections, this`logicError, trackerContext`nodes, trackerContext`currentTracker, trackerContext`runState, trackerContext.trackers`runState
      ensures trackerContext.Valid() && trackerContext.trackers == old(trackerContext.trackers)
      ensures activeSections == [] && unfinishedSections == []
      ensures logicError == old(logicError)
      ensures trackerContext.nodes == old(trackerContext.nodes)
    {
      var i := |unfinishedSections|;
      while i > 0
        invariant trackerContext.Valid() && trackerContext.trackers == old(trackerContext.trackers)
        invariant trackerContext.currentTracker != null && activeSections == []
        invariant logicError == old(logicError)
        invariant trackerContext.nodes == old(trackerContext.nodes)
      {
        i := i - 1;
        SectionEnded();
      }
      unfinishedSections := [];
    }

    /** One cycle: the body of the test case runs, an exception that gets out of it is caught, and
        the test case's tracker is closed either way. */
    method RunCurrentTest(test: Section, ghost m: Forest)
      requires In([test.id]) && !trackerContext.CompletedACycle()
      requires testCaseTracker == trackerContext.currentTracker && activeSections == [] && unfinishedSections == []
      requires DistinctSiblings(test.body)
      requires Scanning(trackerContext.nodes, [test.id], test.body, 0, false)
      requires AncestorsOpen(trackerContext.nodes, [test.id])
      requires Opened(m, trackerContext.nodes, [], test.(throws := false))
      modifies this`activeSections, this`unfinishedSections, this`logicError, this`entered, trackerContext, trackerContext.trackers
      ensures trackerContext.Valid() && OnlyAdded()
      ensures activeSections == [] && unfinishedSections == []
      ensures logicError == old(logicError)
      ensures
        var t := test.(throws := false);
        var v := Remaining(m, [test.id], t)[0];
        && entered == old(entered) + Chain([], v.path)
        && TookCycle(m, trackerContext.nodes, [], t, v)
        && Look(trackerContext.nodes, [test.id]).state != Failed
    {
      RunTestBody(test, m);
      EndTestCase([test.id]);
    }

    /** The end of the cycle, however the body ended. */
    method EndTestCase(ghost c: Path)
      requires In(c) && c != [] && trackerContext.nodes[c].state.IsOpen() && activeSections == []
      requires testCaseTracker != null && testCaseTracker in trackerContext.trackers
      requires testCaseTracker.Placed(trackerContext) && testCaseTracker.path == c
      modifies this`activeSections, this`unfinishedSections, this`logicError, trackerContext`nodes, trackerContext`currentTracker, trackerContext`runState, trackerContext.trackers`runState
      ensures trackerContext.Valid() && trackerContext.trackers == old(trackerContext.trackers)
      ensures activeSections == [] && unfinishedSections == [] && logicError == old(logicError)
      ensures trackerContext.nodes == LeftAt(old(trackerContext.nodes), c, false, false)
      ensures Look(trackerContext.nodes, c).state != Failed
    {
      CloseTestCase(c);
      HandleUnfinishedSections();
    }

    /** The body of the test case, whose exceptions are caught. */
    method RunTestBody(test: Section, ghost m: Forest)
      requires In([test.id]) && !trackerContext.CompletedACycle()
      requires testCaseTracker == trackerContext.currentTracker && unfinishedSections == []
      requires DistinctSiblings(test.body)
      requires Scanning(trackerContext.nodes, [test.id], test.body, 0, false)
      requires AncestorsOpen(trackerContext.nodes, [test.id])
      requires Opened(m, trackerContext.nodes, [], test.(throws := false))
      modifies this`activeSections, this`unfinishedSections, this`logicError, this`entered, trackerContext, trackerContext.trackers
      ensures In([test.id]) && OnlyAdded()
      ensures activeSections == old(activeSections) && logicError == old(logicError)
      ensures testCaseTracker in trackerContext.trackers && testCaseTracker.Placed(trackerContext)
      ensures trackerContext.nodes[[test.id]].state.IsOpen()
      ensures
        var t := test.(throws := false);
        var v := Remaining(m, [test.id], t)[0];
        && entered == old(entered) + Chain([], v.path)
        && TookCycle(m, LeftAt(trackerContext.nodes, [test.id], false, false), [], t, v)
    {
      ghost var t := test.(throws := false);
      ghost var m1 := trackerContext.nodes;
      assert ChildPath([], t) == [test.id];
      entered := entered + [[test.id]];
      EnteredOnTheWay(entered, m, m1, [], t);
      var threw := RunBody(test.body, [test.id]);
      testCaseTracker.StillPlaced(trackerContext);
      LeaveStep(m, m1, trackerContext.nodes, [], t, threw);
    }

    method CloseTestCase(ghost c: Path)
      requires In(c) && c != [] && trackerContext.nodes[c].state.IsOpen()
      requires testCaseTracker != null && testCaseTracker in trackerContext.trackers
      requires testCaseTracker.Placed(trackerContext) && testCaseTracker.path == c
      modifies this`logicError, trackerContext`nodes, trackerContext`currentTracker, trackerContext`runState, trackerContext.trackers`runState
      ensures In(Parent(c)) && logicError == old(logicError)
      ensures trackerContext.nodes == LeftAt(old(trackerContext.nodes), c, false, false)
      ensures trackerContext.nodes[c].state != Failed
    {
      var ok := testCaseTracker.Close();
      logicError := logicError || !ok;
    }

    /** One turn of the loop of `RunTest`. */
    method RunCycle(test: Section) returns (done: bool)
      requires trackerContext.Valid() && activeSections == [] && unfinishedSections == []
      requires DistinctSiblings(test.body)
      requires AtRest(trackerContext.nodes, [test.id], test.(throws := false)) && !Done(trackerContext.nodes, [test.id])
      modifies this, trackerContext, trackerContext.trackers
      ensures trackerContext.Valid() && OnlyAdded()
      ensures activeSections == [] && unfinishedSections == [] && logicError == old(logicError)
      ensures testCaseTracker != null && done == testCaseTracker.IsSuccessfullyCompleted()
      ensures done <==> Done(trackerContext.nodes, [test.id])
      ensures
        var c, t := [test.id], test.(throws := false);
        var v := Remaining(old(trackerContext.nodes), c, t)[0];
        && entered == old(entered) + Chain([], v.path)
        && Remaining(old(trackerContext.nodes), c, t) == [v] + Remaining(trackerContext.nodes, c, t)
        && AtRest(trackerContext.nodes, c, t)
    {
      ghost var m := trackerContext.nodes;
      EnterTestCase(test);
      RunCurrentTest(test, m);
      testCaseTracker.StillPlaced(trackerContext);
      done := testCaseTracker.IsSuccessfullyCompleted();
    }

    /** The start of a cycle, which opens the test case's tracker. */
    method EnterTestCase(test: Section)
      requires trackerContext.Valid()
      requires AtRest(trackerContext.nodes, [test.id], test.(throws := false)) && !Done(trackerContext.nodes, [test.id])
      modifies this`testCaseTracker, trackerContext, trackerContext.trackers
      ensures OnlyAdded() && In([test.id]) && !trackerContext.CompletedACycle()
      ensures testCaseTracker == trackerContext.currentTracker
      ensures
        var c, m := [test.id], trackerContext.nodes;
        Scanning(m, c, test.body, 0, false) && AncestorsOpen(m, c) && Opened(old(trackerContext.nodes), m, [], test.(throws := false))
    {
      EnterTop(trackerContext.nodes, test);
      AcquireTestCase(test.id);
    }

    method AcquireTestCase(id: NameAndLocation)
      requires trackerContext.Valid() && !Done(AddChildAt(trackerContext.nodes, [], id), [id])
      modifies this`testCaseTracker, trackerContext, trackerContext.trackers
      ensures OnlyAdded() && In([id]) && !trackerContext.CompletedACycle()
      ensures testCaseTracker == trackerContext.currentTracker
      ensures trackerContext.nodes == OpenAt(AddChildAt(old(trackerContext.nodes), [], id), [] + [id])
    {
      trackerContext.StartCycle();
      assert [] + [id] == [id];
      testCaseTracker := SectionTracker.Acquire(trackerContext, id);
    }

    method RunTest(test: Section) returns (cycles: nat)
      requires DistinctSiblings(test.body)
      requires activeSections == [] && unfinishedSections == []
      modifies this, trackerContext
      ensures cycles == |TestRuns(test)|
      ensures entered == old(entered) + Log(TestRuns(test))
      ensures logicError == old(logicError)
      ensures activeSections == [] && unfinishedSections == []
      ensures testCaseTracker != null && testCaseTracker.IsSuccessfullyCompleted()
    {
      trackerContext.StartRun();
      NothingDoneYet(trackerContext.nodes, [test.id], test.(throws := false));
      cycles := RunCycles(test, TestRuns(test));
    }

    /** Cycle after cycle until the test case is done. */
    method RunCycles(test: Section, ghost vs: seq<Visit>) returns (cycles: nat)
      requires trackerContext.Valid() && activeSections == [] && unfinishedSections == []
      requires DistinctSiblings(test.body)
      requires AtRest(trackerContext.nodes, [test.id], test.(throws := false)) && !Done(trackerContext.nodes, [test.id])
      requires Remaining(trackerContext.nodes, [test.id], test.(throws := false)) == vs
      modifies this, trackerContext, trackerContext.trackers
      ensures cycles == |vs|
      ensures entered == old(entered) + Log(vs)
      ensures logicError == old(logicError)
      ensures activeSections == [] && unfinishedSections == []
      ensures testCaseTracker != null && testCaseTracker.IsSuccessfullyCompleted()
    {
      ghost var t, c := test.(throws := false), [test.id];
      cycles := 0;
      var done := false;
      while !done
        invariant trackerContext.Valid() && OnlyAdded()
        invariant AtRest(trackerContext.nodes, c, t)
        invariant done <==> Done(trackerContext.nodes, c)
        invariant done ==> testCaseTracker != null && testCaseTracker.IsSuccessfullyCompleted()
        invariant cycles <= |vs| && Remaining(trackerContext.nodes, c, t) == vs[cycles..]
        invariant entered == old(entered) + Log(vs[..cycles])
        invariant logicError == old(logicError) && activeSections == [] && unfinishedSections == []
        decreases |vs| - cycles
      {
        done := RunCycle(test);
        CycleTaken(old(entered), vs, cycles, Remaining(trackerContext.nodes, c, t));
        cycles := cycles + 1;
      }
      assert vs[..cycles] == vs;
    }
  }
}
