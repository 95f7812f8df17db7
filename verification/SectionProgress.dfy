/** How far the trackers of a run have got with a test body, between cycles and within one. */
module SectionProgress {
  import opened SectionTree
  import opened Trackers

  ghost predicate Below(p: Path, q: Path)
  {
    |p| <= |q| && forall i :: 0 <= i < |p| ==> q[i] == p[i]
  }

  /** A tracker that is not there yet looks like one that was never started. */
  function Look(m: Forest, q: Path): Node
  {
    if q in m then m[q] else Node([], NotStarted)
  }

  predicate Done(m: Forest, q: Path)
  {
    Look(m, q).state.IsComplete()
  }

  ghost predicate SameBelow(m: Forest, m': Forest, p: Path)
  {
    forall q :: Below(p, q) ==> Look(m, q) == Look(m', q)
  }

  ghost predicate Untouched(m: Forest, p: Path)
  {
    forall q :: Below(p, q) ==> Look(m, q) == Node([], NotStarted)
  }

  function Ids(body: seq<Section>): (r: seq<NameAndLocation>)
    ensures |r| == |body|
    ensures forall i :: 0 <= i < |r| ==> r[i] == body[i].id
  {
    seq(|body|, i requires 0 <= i < |body| => body[i].id)
  }

  function ChildPath(p: Path, s: Section): Path
  {
    p + [s.id]
  }

  // ----- the cycles still to come -----

  function Remaining(m: Forest, p: Path, s: Section): seq<Visit>
    decreases s, 0
  {
    if Done(m, p) then [] else Wrap(s, RemainingAll(m, p, s.body))
  }

  function RemainingAll(m: Forest, p: Path, body: seq<Section>): seq<Visit>
    decreases body, 1
  {
    if body == [] then []
    else Remaining(m, ChildPath(p, body[0]), body[0]) + RemainingAll(m, p, body[1..])
  }

  // ----- the shape of the trackers between cycles -----

  ghost predicate ListsPrefix(m: Forest, p: Path, body: seq<Section>)
  {
    Look(m, p).children <= Ids(body)
  }

  /** A tracker at rest is complete, was never opened, or waits to be run again. */
  ghost predicate AtRest(m: Forest, p: Path, s: Section)
    decreases s, 0
  {
    || Done(m, p)
    || Untouched(m, p)
    || (&& (Look(m, p).state == ExecutingChildren || Look(m, p).state == NeedsAnotherRun)
        && ListsPrefix(m, p, s.body)
        && AllAtRest(m, p, s.body))
  }

  /** Siblings are a run of complete ones, then at most one that has been opened, then untouched ones. */
  ghost predicate AllAtRest(m: Forest, p: Path, body: seq<Section>)
    decreases body, 1
  {
    body == [] ||
    (&& AtRest(m, ChildPath(p, body[0]), body[0])
     && AllAtRest(m, p, body[1..])
     && (!Done(m, ChildPath(p, body[0])) ==> AllUntouched(m, p, body[1..])))
  }

  ghost predicate AllUntouched(m: Forest, p: Path, body: seq<Section>)
  {
    forall i :: 0 <= i < |body| ==> Untouched(m, ChildPath(p, body[i]))
  }

  // ----- lemmas -----

  lemma {:induction false} Frame(m: Forest, m': Forest, p: Path, s: Section)
    requires SameBelow(m, m', p)
    ensures Remaining(m, p, s) == Remaining(m', p, s)
    ensures AtRest(m, p, s) <==> AtRest(m', p, s)
    decreases s, 0
  {
    assert Look(m, p) == Look(m', p);
    forall i | 0 <= i < |s.body| ensures SameBelow(m, m', ChildPath(p, s.body[i])) {}
    FrameAll(m, m', p, s.body);
  }

  lemma {:induction false} FrameAll(m: Forest, m': Forest, p: Path, body: seq<Section>)
    requires forall i :: 0 <= i < |body| ==> SameBelow(m, m', ChildPath(p, body[i]))
    ensures RemainingAll(m, p, body) == RemainingAll(m', p, body)
    ensures AllAtRest(m, p, body) <==> AllAtRest(m', p, body)
    decreases body, 1
  {
    if body != [] {
      Frame(m, m', ChildPath(p, body[0]), body[0]);
      assert Look(m, ChildPath(p, body[0])) == Look(m', ChildPath(p, body[0]));
      forall i | 0 <= i < |body[1..]| ensures SameBelow(m, m', ChildPath(p, body[1..][i])) {
        assert body[1..][i] == body[i+1];
      }
      FrameAll(m, m', p, body[1..]);
      forall i | 0 <= i < |body[1..]|
        ensures Untouched(m, ChildPath(p, body[1..][i])) <==> Untouched(m', ChildPath(p, body[1..][i]))
      {
        assert SameBelow(m, m', ChildPath(p, body[1..][i]));
      }
    }
  }

  /** A section whose tracker was never opened has all its cycles before it. */
  lemma {:induction false} NothingDoneYet(m: Forest, p: Path, s: Section)
    requires Untouched(m, p)
    ensures Remaining(m, p, s) == Runs(s) && AllAtRest(m, p, s.body)
    ensures AtRest(m, p, s)
    decreases s, 0
  {
    assert Below(p, p);
    forall i | 0 <= i < |s.body| ensures Untouched(m, ChildPath(p, s.body[i])) {}
    NoneDoneYet(m, p, s.body);
  }

  lemma {:induction false} NoneDoneYet(m: Forest, p: Path, body: seq<Section>)
    requires AllUntouched(m, p, body)
    ensures RemainingAll(m, p, body) == RunsAll(body) && AllAtRest(m, p, body)
    decreases body, 1
  {
    if body != [] {
      NothingDoneYet(m, ChildPath(p, body[0]), body[0]);
      NoneDoneYet(m, p, body[1..]);
    }
  }

  /** Only complete sections have no cycles to come. */
  lemma {:induction false} NoneRemaining(m: Forest, p: Path, body: seq<Section>)
    requires AllAtRest(m, p, body) && body != []
    ensures RemainingAll(m, p, body) == [] <==> Done(m, ChildPath(p, body[|body|-1]))
  {
    if |body| > 1 {
      NoneRemaining(m, p, body[1..]);
      assert body[1..][|body|-2] == body[|body|-1];
      if !Done(m, ChildPath(p, body[0])) {
        assert Untouched(m, ChildPath(p, body[1..][|body|-2]));
        assert Below(ChildPath(p, body[|body|-1]), ChildPath(p, body[|body|-1]));
      }
    } else {
      assert RemainingAll(m, p, body) == Remaining(m, ChildPath(p, body[0]), body[0]) + [];
    }
  }

  /** Complete sections at the front neither add cycles nor constrain the rest. */
  lemma {:induction false} SkipDone(m: Forest, p: Path, body: seq<Section>, i: nat)
    requires i <= |body|
    requires forall j :: 0 <= j < i ==> Done(m, ChildPath(p, body[j]))
    ensures RemainingAll(m, p, body) == RemainingAll(m, p, body[i..])
    ensures AllAtRest(m, p, body) <==> AllAtRest(m, p, body[i..])
  {
    if i > 0 {
      assert body[1..][i-1..] == body[i..];
      forall j | 0 <= j < i - 1 ensures Done(m, ChildPath(p, body[1..][j])) {
        assert body[1..][j] == body[j+1];
      }
      SkipDone(m, p, body[1..], i - 1);
    } else {
      assert body[0..] == body;
    }
  }

  lemma {:induction false} FirstNotSkipped(m: Forest, p: Path, body: seq<Section>, i: nat)
    requires i < |body|
    requires forall j :: 0 <= j < i ==> Done(m, ChildPath(p, body[j]))
    ensures RemainingAll(m, p, body) == Remaining(m, ChildPath(p, body[i]), body[i]) + RemainingAll(m, p, body[i+1..])
    ensures AllAtRest(m, p, body) <==>
      && AtRest(m, ChildPath(p, body[i]), body[i]) && AllAtRest(m, p, body[i+1..])
      && (!Done(m, ChildPath(p, body[i])) ==> AllUntouched(m, p, body[i+1..]))
  {
    SkipDone(m, p, body, i);
    assert body[i..][0] == body[i] && body[i..][1..] == body[i+1..];
  }

  // ----- within a cycle -----

  ghost predicate AncestorsOpen(m: Forest, p: Path)
  {
    forall k :: 0 <= k < |p| ==> Look(m, p[..k]).state == ExecutingChildren
  }

  /** The body of the section at `p` has run its first `i` sub-sections, none of which threw.
      Until one has been entered, all of those are complete; after that, the later ones are untouched. */
  ghost predicate Scanning(m: Forest, p: Path, body: seq<Section>, i: nat, entered: bool)
    requires i <= |body|
  {
    && p in m
    && ListsPrefix(m, p, body) && i <= |m[p].children|
    && AllAtRest(m, p, body)
    && (if entered then m[p].state == ExecutingChildren && AllUntouched(m, p, body[i..])
        else m[p].state == Executing && forall j :: 0 <= j < i ==> Done(m, ChildPath(p, body[j])))
  }

  /** Between `m` and `m'` the section `s`, below `p`, was entered and took the cycle `v`. */
  ghost predicate TookCycle(m: Forest, m': Forest, p: Path, s: Section, v: Visit)
  {
    var c := ChildPath(p, s);
    && Remaining(m, c, s) == [v] + Remaining(m', c, s)
    && AtRest(m', c, s)
    && (forall q :: q != p && !Below(c, q) ==> Look(m', q) == Look(m, q))
    && p in m' && s.id in m'[p].children
    && m'[p].state == (if v.threw && Done(m', c) then NeedsAnotherRun else ExecutingChildren)
    && m'[p].children == (if s.id in Look(m, p).children then Look(m, p).children else Look(m, p).children + [s.id])
  }

  /** Between `m` and `m'` the section `s`, below `p`, was opened, with nothing of its body run yet. */
  ghost predicate Opened(m: Forest, m': Forest, p: Path, s: Section)
  {
    var c := ChildPath(p, s);
    && !Done(m, c)
    && Remaining(m, c, s) == Wrap(s, RemainingAll(m', c, s.body))
    && (forall q :: q != p && q != c ==> Look(m', q) == Look(m, q))
    && p in m' && m'[p].state == ExecutingChildren && s.id in m'[p].children
    && m'[p].children == (if s.id in Look(m, p).children then Look(m, p).children else Look(m, p).children + [s.id])
  }

  /** An exception has passed through the section at `p`: closing it will not complete it. */
  ghost predicate Interrupted(m: Forest, p: Path)
  {
    var n := Look(m, p);
    || n.state == NeedsAnotherRun
    || (n.state == ExecutingChildren && n.children != [] && !Done(m, p + [n.children[|n.children|-1]]))
  }

  /** Between `m` and `m'` the body of the section at `p` has run once. */
  ghost predicate RanBody(m: Forest, m': Forest, p: Path, body: seq<Section>, threw: bool)
  {
    var vs := RemainingAll(m, p, body);
    && ListsPrefix(m', p, body) && AllAtRest(m', p, body)
    && (forall q :: !Below(p, q) ==> Look(m', q) == Look(m, q))
    && (if vs == [] then
          !threw && Look(m', p).state == Executing && RemainingAll(m', p, body) == []
        else
          && threw == vs[0].threw && RemainingAll(m', p, body) == vs[1..]
          && (if threw then Interrupted(m', p)
              else Look(m', p).state == ExecutingChildren && Look(m', p).children == Ids(body)))
  }

  lemma {:induction false} ListedOrNext(ids: seq<NameAndLocation>, listed: seq<NameAndLocation>, i: nat)
    requires listed <= ids && i <= |listed| && i < |ids|
    requires forall j, k :: 0 <= j < k < |ids| ==> ids[j] != ids[k]
    ensures ids[i] in listed <==> i < |listed|
    ensures ids[i] !in listed ==> listed + [ids[i]] <= ids
  {}

  lemma {:induction false} AddChildLooks(m: Forest, p: Path, id: NameAndLocation)
    requires WellLinked(m) && p in m
    ensures
      var m' := AddChildAt(m, p, id);
      && (forall q :: q != p ==> Look(m', q) == Look(m, q))
      && m'[p].state == m[p].state
      && m'[p].children == (if id in m[p].children then m[p].children else m[p].children + [id])
  {
    if id !in m[p].children {
      AddChildKeepsLinks(m, p, id);
    }
  }

  /** Reaching a sub-section that is complete, or any once the cycle is over, changes nothing but
      the list of children. */
  lemma {:induction false} SkipStep(m: Forest, p: Path, body: seq<Section>, i: nat, entered: bool)
    requires WellLinked(m) && DistinctSiblings(body) && i < |body|
    requires Scanning(m, p, body, i, entered)
    requires entered || Done(m, ChildPath(p, body[i]))
    ensures
      var m' := AddChildAt(m, p, body[i].id);
      && Scanning(m', p, body, i + 1, entered)
      && RemainingAll(m', p, body) == RemainingAll(m, p, body)
      && (forall q :: q != p ==> Look(m', q) == Look(m, q))
  {
    var m' := AddChildAt(m, p, body[i].id);
    AddChildLooks(m, p, body[i].id);
    ListedOrNext(Ids(body), m[p].children, i);
    forall j | 0 <= j < |body| ensures SameBelow(m, m', ChildPath(p, body[j])) {}
    FrameAll(m, m', p, body);
    if entered {
      var rest := body[i+1..];
      forall j | 0 <= j < |rest| ensures Untouched(m', ChildPath(p, rest[j])) {
        assert rest[j] == body[i..][j+1];
        assert Untouched(m, ChildPath(p, body[i..][j+1]));
      }
    }
  }

  lemma {:induction false} OpenAtEffect(m: Forest, p: Path, c: Path)
    requires WellLinked(m) && c in m && c != [] && Parent(c) == p && p in m
    requires AncestorsOpen(m, p)
    ensures OpenAt(m, c) == SetNode(SetNode(m, c, Executing), p, ExecutingChildren)
  {
    var m1 := SetNode(m, c, Executing);
    if m1[p].state == ExecutingChildren {
      assert SetNode(m1, p, ExecutingChildren) == m1;
    } else if p != [] {
      var up := Parent(p);
      assert Look(m, up).state == ExecutingChildren;
      assert |up| < |p| < |c|;
      var m2 := SetNode(m1, p, ExecutingChildren);
      assert m2[up].state == ExecutingChildren;
      assert OpenAt(m, c) == OpenChildAt(m1, p) == OpenChildAt(m2, up) == m2;
    }
  }

  /** An incomplete section at rest has its sub-sections at rest, and lists some of them. */
  lemma {:induction false} ReadyToRun(m: Forest, c: Path, s: Section)
    requires AtRest(m, c, s) && !Done(m, c)
    ensures AllAtRest(m, c, s.body) && ListsPrefix(m, c, s.body)
  {
    if Untouched(m, c) {
      NothingDoneYet(m, c, s);
      assert Below(c, c);
    }
  }

  lemma {:induction false} OpenedLooks(m: Forest, p: Path, id: NameAndLocation)
    requires WellLinked(m) && p in m && AncestorsOpen(m, p)
    ensures
      var c := p + [id];
      var m' := OpenAt(AddChildAt(m, p, id), c);
      && (forall q :: q != p && q != c ==> Look(m', q) == Look(m, q))
      && c in m' && m'[c] == Node(Look(m, c).children, Executing)
      && p in m' && m'[p].state == ExecutingChildren && id in m'[p].children
      && m'[p].children == (if id in m[p].children then m[p].children else m[p].children + [id])
  {
    var c := p + [id];
    var m1 := AddChildAt(m, p, id);
    AddChildLooks(m, p, id);
    assert Parent(c) == p;
    assert AncestorsOpen(m1, p) by {
      forall k | 0 <= k < |p| ensures Look(m1, p[..k]).state == ExecutingChildren {
        assert p[..k] != p;
      }
    }
    OpenAtEffect(m1, p, c);
  }

  /** Opening a section that is not complete makes it ready to run its own body. */
  lemma {:induction false} EnterAt(m: Forest, p: Path, s: Section)
    requires WellLinked(m) && p in m && AncestorsOpen(m, p)
    requires AtRest(m, ChildPath(p, s), s) && !Done(m, ChildPath(p, s))
    ensures
      var c := ChildPath(p, s);
      var m' := OpenAt(AddChildAt(m, p, s.id), c);
      Scanning(m', c, s.body, 0, false) && AncestorsOpen(m', c) && Opened(m, m', p, s)
  {
    var c := ChildPath(p, s);
    OpenedLooks(m, p, s.id);
    var m' := OpenAt(AddChildAt(m, p, s.id), c);
    ReadyToRun(m, c, s);
    forall j | 0 <= j < |s.body| ensures SameBelow(m, m', ChildPath(c, s.body[j])) {}
    FrameAll(m, m', c, s.body);
    AncestorsOpened(m, m', p, s);
  }

  lemma {:induction false} AncestorsOpened(m: Forest, m': Forest, p: Path, s: Section)
    requires AncestorsOpen(m, p) && Opened(m, m', p, s)
    ensures AncestorsOpen(m', ChildPath(p, s))
  {
    var c := ChildPath(p, s);
    forall k | 0 <= k < |c| ensures Look(m', c[..k]).state == ExecutingChildren {
      assert c[..k] == p[..k];
      if k == |p| {
        assert p[..k] == p;
      }
    }
  }

  lemma {:induction false} EnterStep(m: Forest, p: Path, body: seq<Section>, i: nat)
    requires WellLinked(m) && i < |body|
    requires Scanning(m, p, body, i, false) && AncestorsOpen(m, p)
    requires !Done(m, ChildPath(p, body[i]))
    ensures
      var s, c := body[i], ChildPath(p, body[i]);
      var m' := OpenAt(AddChildAt(m, p, s.id), c);
      Scanning(m', c, s.body, 0, false) && AncestorsOpen(m', c) && Opened(m, m', p, s)
  {
    FirstNotSkipped(m, p, body, i);
    EnterAt(m, p, body[i]);
  }

  lemma {:induction false} SiblingFrame(m: Forest, m': Forest, p: Path, s: Section, sibling: Section)
    requires forall q :: q != p && !Below(ChildPath(p, s), q) ==> Look(m', q) == Look(m, q)
    requires s.id != sibling.id
    ensures SameBelow(m, m', ChildPath(p, sibling))
    ensures Look(m', ChildPath(p, sibling)) == Look(m, ChildPath(p, sibling))
  {
    var c, d := ChildPath(p, s), ChildPath(p, sibling);
    forall q | Below(d, q) ensures Look(m, q) == Look(m', q) {
      assert q[|p|] == d[|p|] != c[|p|];
    }
    assert Below(d, d);
  }

  /** The siblings of a sub-section that took its cycle are as they were. */
  lemma {:induction false} ReturnToSiblings(m: Forest, m': Forest, p: Path, body: seq<Section>, i: nat, v: Visit)
    requires DistinctSiblings(body) && i < |body|
    requires Scanning(m, p, body, i, false) && !Done(m, ChildPath(p, body[i]))
    requires TookCycle(m, m', p, body[i], v)
    ensures forall j :: 0 <= j < i ==> Done(m', ChildPath(p, body[j]))
    ensures AllAtRest(m', p, body[i+1..]) && AllUntouched(m', p, body[i+1..])
    ensures RemainingAll(m', p, body[i+1..]) == RemainingAll(m, p, body[i+1..])
  {
    var rest := body[i+1..];
    FirstNotSkipped(m, p, body, i);
    forall j | 0 <= j < i ensures Done(m', ChildPath(p, body[j])) {
      assert Done(m, ChildPath(p, body[j]));
      SiblingFrame(m, m', p, body[i], body[j]);
    }
    forall j | 0 <= j < |rest| ensures SameBelow(m, m', ChildPath(p, rest[j])) {
      assert rest[j] == body[i+1+j];
      SiblingFrame(m, m', p, body[i], rest[j]);
    }
    FrameAll(m, m', p, rest);
    forall j | 0 <= j < |rest| ensures Untouched(m', ChildPath(p, rest[j])) {
      assert Untouched(m, ChildPath(p, rest[j]));
    }
  }

  lemma {:induction false} ReturnRemaining(m: Forest, m': Forest, p: Path, body: seq<Section>, i: nat, v: Visit)
    requires i < |body|
    requires forall j :: 0 <= j < i ==> Done(m, ChildPath(p, body[j])) && Done(m', ChildPath(p, body[j]))
    requires Remaining(m, ChildPath(p, body[i]), body[i]) == [v] + Remaining(m', ChildPath(p, body[i]), body[i])
    requires AtRest(m', ChildPath(p, body[i]), body[i])
    requires AllAtRest(m', p, body[i+1..]) && AllUntouched(m', p, body[i+1..])
    requires RemainingAll(m', p, body[i+1..]) == RemainingAll(m, p, body[i+1..])
    ensures RemainingAll(m, p, body) == [v] + RemainingAll(m', p, body)
    ensures AllAtRest(m', p, body)
  {
    FirstNotSkipped(m, p, body, i);
    FirstNotSkipped(m', p, body, i);
  }

  /** The last child listed is the one that took its cycle, or an untouched one after it. */
  lemma {:induction false} LastListedNotDone(m: Forest, p: Path, body: seq<Section>, i: nat)
    requires i < |body| && ListsPrefix(m, p, body) && i < |Look(m, p).children|
    requires !Done(m, ChildPath(p, body[i])) && AllUntouched(m, p, body[i+1..])
    ensures var n := Look(m, p).children; !Done(m, p + [n[|n|-1]])
  {
    var n := Look(m, p).children;
    var k := |n| - 1;
    assert n[k] == Ids(body)[k] == body[k].id;
    if k > i {
      assert body[k] == body[i+1..][k-i-1];
      assert Below(p + [n[k]], p + [n[k]]);
    }
  }

  /** After a sub-section took its cycle, the body goes on looking for more, or unwinds. */
  lemma {:induction false} ReturnStep(m: Forest, m': Forest, p: Path, body: seq<Section>, i: nat, v: Visit)
    requires DistinctSiblings(body) && i < |body|
    requires Scanning(m, p, body, i, false) && !Done(m, ChildPath(p, body[i]))
    requires TookCycle(m, m', p, body[i], v)
    ensures RemainingAll(m, p, body) == [v] + RemainingAll(m', p, body)
    ensures AllAtRest(m', p, body) && ListsPrefix(m', p, body)
    ensures if v.threw then Interrupted(m', p) else Scanning(m', p, body, i + 1, true)
  {
    ReturnToSiblings(m, m', p, body, i, v);
    ReturnRemaining(m, m', p, body, i, v);
    ListedOrNext(Ids(body), m[p].children, i);
    if v.threw && !Done(m', ChildPath(p, body[i])) {
      LastListedNotDone(m', p, body, i);
    }
  }

  // ----- leaving a section -----

  lemma {:induction false} SameUnderNewState(m: Forest, m': Forest, c: Path, body: seq<Section>)
    requires forall q :: q != c && Below(c, q) ==> Look(m', q) == Look(m, q)
    ensures RemainingAll(m', c, body) == RemainingAll(m, c, body)
    ensures AllAtRest(m', c, body) <==> AllAtRest(m, c, body)
  {
    forall j | 0 <= j < |body| ensures SameBelow(m, m', ChildPath(c, body[j])) {}
    FrameAll(m, m', c, body);
  }

  /** The state a section closes to after its body ran: complete exactly when nothing is left of it. */
  lemma {:induction false} ClosesWhenDone(m1: Forest, m2: Forest, c: Path, body: seq<Section>)
    requires RanBody(m1, m2, c, body, false) && WellLinked(m2) && c in m2
    ensures m2[c].state.IsOpen()
    ensures
      var vs := RemainingAll(m1, c, body);
      ClosedState(m2, c) == if |vs| <= 1 then CompletedSuccessfully else ExecutingChildren
  {
    if RemainingAll(m1, c, body) != [] {
      NoneRemaining(m2, c, body);
      var n := m2[c].children;
      assert c + [n[|n|-1]] == ChildPath(c, body[|n|-1]);
    }
  }

  /** What is left of a section once it is closed. */
  lemma {:induction false} RemainingClosed(m1: Forest, m2: Forest, c: Path, s: Section)
    requires RanBody(m1, m2, c, s.body, false) && WellLinked(m2) && c in m2 && !s.throws
    ensures
      var vs, m3 := Wrap(s, RemainingAll(m1, c, s.body)), SetNode(m2, c, ClosedState(m2, c));
      vs == [vs[0]] + Remaining(m3, c, s) && AtRest(m3, c, s) && !vs[0].threw
  {
    var m3 := SetNode(m2, c, ClosedState(m2, c));
    ClosesWhenDone(m1, m2, c, s.body);
    SameUnderNewState(m2, m3, c, s.body);
  }

  /** While the body of a section ran, nothing outside of it changed. */
  lemma {:induction false} AroundBody(m: Forest, m1: Forest, m2: Forest, p: Path, s: Section, threw: bool)
    requires Opened(m, m1, p, s) && RanBody(m1, m2, ChildPath(p, s), s.body, threw)
    ensures p in m2 && m2[p] == m1[p]
    ensures forall q :: q != p && !Below(ChildPath(p, s), q) ==> Look(m2, q) == Look(m, q)
  {
    var c := ChildPath(p, s);
    assert !Below(c, p) && Look(m2, p) == Look(m1, p);
    assert Below(c, c);
  }

  /** The section ends normally and is closed. */
  lemma {:induction false} CloseStep(m: Forest, m1: Forest, m2: Forest, p: Path, s: Section)
    requires Opened(m, m1, p, s) && RanBody(m1, m2, ChildPath(p, s), s.body, false) && !s.throws
    requires WellLinked(m2) && ChildPath(p, s) in m2
    ensures m2[ChildPath(p, s)].state.IsOpen()
    ensures
      var c := ChildPath(p, s);
      TookCycle(m, SetNode(m2, c, ClosedState(m2, c)), p, s, Remaining(m, c, s)[0])
  {
    var c := ChildPath(p, s);
    ClosesWhenDone(m1, m2, c, s.body);
    RemainingClosed(m1, m2, c, s);
    AroundBody(m, m1, m2, p, s, false);
    ClosedTookCycle(m, m1, m2, p, s, ClosedState(m2, c));
  }

  lemma {:induction false} ClosedTookCycle(m: Forest, m1: Forest, m2: Forest, p: Path, s: Section, st: CycleState)
    requires Opened(m, m1, p, s) && ChildPath(p, s) in m2 && p in m2 && m2[p] == m1[p]
    requires forall q :: q != p && !Below(ChildPath(p, s), q) ==> Look(m2, q) == Look(m, q)
    requires
      var c, vs, m3 := ChildPath(p, s), Wrap(s, RemainingAll(m1, ChildPath(p, s), s.body)), SetNode(m2, ChildPath(p, s), st);
      vs == [vs[0]] + Remaining(m3, c, s) && AtRest(m3, c, s) && !vs[0].threw
    ensures TookCycle(m, SetNode(m2, ChildPath(p, s), st), p, s, Remaining(m, ChildPath(p, s), s)[0])
  {
    assert Below(ChildPath(p, s), ChildPath(p, s));
  }

  /** The section itself throws, and fails. */
  lemma {:induction false} FailStep(m: Forest, m1: Forest, m2: Forest, p: Path, s: Section)
    requires Opened(m, m1, p, s) && RanBody(m1, m2, ChildPath(p, s), s.body, false) && s.throws
    requires WellLinked(m2) && ChildPath(p, s) in m2
    ensures
      var c := ChildPath(p, s);
      TookCycle(m, FailAt(m2, c), p, s, Remaining(m, c, s)[0])
  {
    assert Parent(ChildPath(p, s)) == p;
    assert !Below(ChildPath(p, s), p);
    assert Look(m2, p) == Look(m1, p);
  }

  /** An exception from below passes through the section, which is closed and stays incomplete. */
  lemma {:induction false} UnwindStep(m: Forest, m1: Forest, m2: Forest, p: Path, s: Section)
    requires Opened(m, m1, p, s) && RanBody(m1, m2, ChildPath(p, s), s.body, true)
    requires WellLinked(m2) && ChildPath(p, s) in m2
    ensures m2[ChildPath(p, s)].state.IsOpen()
    ensures
      var c := ChildPath(p, s);
      && SetNode(m2, c, ClosedState(m2, c)) == m2
      && TookCycle(m, m2, p, s, Remaining(m, c, s)[0])
  {
    var c := ChildPath(p, s);
    var n := m2[c];
    if n.state == ExecutingChildren {
      assert c + [n.children[|n.children|-1]] in m2;
    }
    assert ClosedState(m2, c) == n.state && !Done(m2, c);
    assert SetNode(m2, c, ClosedState(m2, c)) == m2;
    assert !Below(c, p) && Look(m2, p) == Look(m1, p);
    assert AtRest(m2, c, s);
    assert Remaining(m, c, s) == [Remaining(m, c, s)[0]] + Remaining(m2, c, s);
  }

  /** What leaving the section at `c` does, `thrownBelow` telling an exception that comes from one
      of its sub-sections from one of its own. */
  ghost function LeftAt(m: Forest, c: Path, throws: bool, thrownBelow: bool): Forest
    requires WellLinked(m) && c in m && c != []
  {
    if throws && !thrownBelow then FailAt(m, c) else SetNode(m, c, ClosedState(m, c))
  }

  lemma {:induction false} LeaveStep(m: Forest, m1: Forest, m2: Forest, p: Path, s: Section, threw: bool)
    requires Opened(m, m1, p, s) && RanBody(m1, m2, ChildPath(p, s), s.body, threw)
    requires WellLinked(m2) && ChildPath(p, s) in m2
    ensures
      var c := ChildPath(p, s);
      var v := Remaining(m, c, s)[0];
      && TookCycle(m, LeftAt(m2, c, s.throws, threw), p, s, v)
      && v.threw == (threw || s.throws)
      && ((threw || !s.throws) ==> m2[c].state.IsOpen())
  {
    if threw {
      UnwindStep(m, m1, m2, p, s);
    } else if s.throws {
      FailStep(m, m1, m2, p, s);
    } else {
      CloseStep(m, m1, m2, p, s);
    }
  }

  // ----- the loop over the sub-sections of a body -----

  /** From `m0`, the body of the section at `p` has got through its first `i` sub-sections. */
  ghost predicate SoFar(m0: Forest, m: Forest, p: Path, body: seq<Section>, i: nat, entered: bool, threw: bool)
    requires i <= |body|
  {
    var vs := RemainingAll(m0, p, body);
    && p in m
    && (forall q :: !Below(p, q) ==> Look(m, q) == Look(m0, q))
    && (if threw then
          && entered && vs != [] && vs[0].threw && RemainingAll(m, p, body) == vs[1..]
          && AllAtRest(m, p, body) && ListsPrefix(m, p, body) && Interrupted(m, p)
        else
          && Scanning(m, p, body, i, entered)
          && (if entered then vs != [] && !vs[0].threw && RemainingAll(m, p, body) == vs[1..]
              else RemainingAll(m, p, body) == vs))
  }

  lemma {:induction false} SoFarStart(m0: Forest, p: Path, body: seq<Section>)
    requires Scanning(m0, p, body, 0, false)
    ensures SoFar(m0, m0, p, body, 0, false, false)
  {}

  lemma {:induction false} StillOpenAbove(m0: Forest, m: Forest, p: Path)
    requires AncestorsOpen(m0, p)
    requires forall q :: !Below(p, q) ==> Look(m, q) == Look(m0, q)
    ensures AncestorsOpen(m, p)
  {
    forall k | 0 <= k < |p| ensures Look(m, p[..k]).state == ExecutingChildren {
      assert !Below(p, p[..k]);
    }
  }

  lemma {:induction false} SoFarSkip(m0: Forest, m: Forest, p: Path, body: seq<Section>, i: nat, entered: bool)
    requires WellLinked(m) && DistinctSiblings(body) && i < |body|
    requires SoFar(m0, m, p, body, i, entered, false)
    requires entered || Done(m, ChildPath(p, body[i]))
    ensures SoFar(m0, AddChildAt(m, p, body[i].id), p, body, i + 1, entered, false)
  {
    SkipStep(m, p, body, i, entered);
    assert Below(p, p);
  }

  lemma {:induction false} SoFarEnter(m0: Forest, m: Forest, m': Forest, p: Path, body: seq<Section>, i: nat, v: Visit)
    requires DistinctSiblings(body) && i < |body|
    requires SoFar(m0, m, p, body, i, false, false) && !Done(m, ChildPath(p, body[i]))
    requires TookCycle(m, m', p, body[i], v)
    ensures RemainingAll(m0, p, body) != [] && RemainingAll(m0, p, body)[0] == v
    ensures SoFar(m0, m', p, body, i + 1, true, v.threw)
  {
    ReturnStep(m, m', p, body, i, v);
    forall q | !Below(p, q) ensures Look(m', q) == Look(m0, q) {
      assert Below(p, p) && !Below(ChildPath(p, body[i]), q);
    }
  }

  lemma {:induction false} SoFarEnd(m0: Forest, m: Forest, p: Path, body: seq<Section>, i: nat, entered: bool, threw: bool)
    requires i <= |body| && (threw || i == |body|)
    requires SoFar(m0, m, p, body, i, entered, threw)
    ensures RanBody(m0, m, p, body, threw)
    ensures entered <==> RemainingAll(m0, p, body) != []
  {
    if !entered {
      SkipDone(m, p, body, i);
    }
  }
}
