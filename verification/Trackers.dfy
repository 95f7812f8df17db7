/** The trackers that remember, across the cycles of a test case, which sections are done. */
module Trackers {
  import opened SectionTree

  datatype CycleState =
    | NotStarted | Executing | ExecutingChildren | NeedsAnotherRun | CompletedSuccessfully | Failed
  {
    predicate IsComplete() { CompletedSuccessfully? || Failed? }

    predicate IsOpen() { !NotStarted? && !IsComplete() }
  }

  datatype RunState = Idle | InCycle | CompletedCycle

  /** The abstract value of a tracker, and of all trackers of a run: each is found by its path
      of names from the root, and lists its children in the order they were added. */
  datatype Node = Node(children: seq<NameAndLocation>, state: CycleState)

  type Forest = map<Path, Node>

  function Parent(p: Path): Path
    requires p != []
  {
    p[..|p|-1]
  }

  ghost predicate WellLinked(m: Forest)
  {
    && (forall p {:trigger Parent(p)} :: p in m && p != [] ==> Parent(p) in m && p[|p|-1] in m[Parent(p)].children)
    && (forall p, c {:trigger p + [c]} :: p in m && c in m[p].children ==> p + [c] in m)
  }

  // ----- what each tracker action does to the forest -----

  function SetNode(m: Forest, p: Path, st: CycleState): Forest
    requires p in m
  {
    m[p := m[p].(state := st)]
  }

  ghost function OpenChildAt(m: Forest, p: Path): (r: Forest)
    requires WellLinked(m) && p in m
    ensures WellLinked(r) && r.Keys == m.Keys
    decreases |p|
  {
    if m[p].state == ExecutingChildren then m
    else
      var m1 := SetNode(m, p, ExecutingChildren);
      if p == [] then m1 else OpenChildAt(m1, Parent(p))
  }

  ghost function OpenAt(m: Forest, p: Path): (r: Forest)
    requires WellLinked(m) && p in m
    ensures WellLinked(r) && r.Keys == m.Keys
  {
    var m1 := SetNode(m, p, Executing);
    if p == [] then m1 else OpenChildAt(m1, Parent(p))
  }

  /** The state a tracker closes to; none for the states in which closing is a logic error. */
  ghost function ClosedState(m: Forest, p: Path): (st: CycleState)
    requires WellLinked(m) && p in m
  {
    var n := m[p];
    if n.state == Executing then CompletedSuccessfully
    else if n.state == ExecutingChildren && (n.children == [] || m[p + [n.children[|n.children|-1]]].state.IsComplete())
    then CompletedSuccessfully
    else n.state
  }

  /** Closing every tracker from `from` up to its ancestor `upTo`; false for a logic error on the way. */
  ghost function CloseUpTo(m: Forest, from: Path, upTo: Path): (r: (Forest, bool))
    requires WellLinked(m) && from in m && upTo <= from
    ensures WellLinked(r.0) && r.0.Keys == m.Keys
    decreases |from|
  {
    if !m[from].state.IsOpen() then (m, false)
    else
      var m1 := SetNode(m, from, ClosedState(m, from));
      if from == upTo then (m1, true) else CloseUpTo(m1, Parent(from), upTo)
  }

  ghost function FailAt(m: Forest, p: Path): (r: Forest)
    requires WellLinked(m) && p in m && p != []
    ensures WellLinked(r) && r.Keys == m.Keys
  {
    SetNode(SetNode(m, p, Failed), Parent(p), NeedsAnotherRun)
  }

  ghost function AddChildAt(m: Forest, p: Path, id: NameAndLocation): (r: Forest)
    requires WellLinked(m) && p in m
    ensures WellLinked(r) && r.Keys == m.Keys + {p + [id]}
  {
    if id in m[p].children then m
    else
      var r := m[p := m[p].(children := m[p].children + [id])][p + [id] := Node([], NotStarted)];
      AddChildKeepsLinks(m, p, id);
      r
  }

  lemma {:induction false} AddChildKeepsLinks(m: Forest, p: Path, id: NameAndLocation)
    requires WellLinked(m) && p in m && id !in m[p].children
    ensures p + [id] !in m
    ensures WellLinked(m[p := m[p].(children := m[p].children + [id])][p + [id] := Node([], NotStarted)])
  {
    var c := p + [id];
    assert Parent(c) == p;
    var r := m[p := m[p].(children := m[p].children + [id])][c := Node([], NotStarted)];
    forall q, d | q in r && d in r[q].children ensures q + [d] in r {
      assert q != c;
      if q == p && d == id {
      } else {
        assert d in m[q].children;
      }
    }
  }

  // ----- the classes -----

  ghost predicate Unfold(k: int) { true }

  class TrackerContext {
    var rootTracker: SectionTracker?
    var currentTracker: SectionTracker?
    var runState: RunState
    ghost var trackers: set<SectionTracker>  // the trackers of this run,
    ghost var at: map<Path, SectionTracker>  // where each of them is,
    ghost var nodes: Forest                  // and their abstract values

    constructor ()
      ensures rootTracker == null && currentTracker == null && runState == Idle
    {
      rootTracker, currentTracker, runState := null, null, Idle;
      trackers, at, nodes := {}, map[], map[];
    }

    /** What is said of every tracker stays folded, so that it is looked into only where a proof
        asks for it with `Unpack`. */
    ghost predicate Valid()
      reads this, trackers
    {
      && rootTracker != null && rootTracker in trackers && rootTracker.path == [] && [] in nodes
      && (currentTracker != null ==> currentTracker in trackers && currentTracker.Placed(this))
      && WellLinked(nodes)
      && (forall k: int {:trigger Unfold(k)} :: Unfold(k) ==> AllPlaced())
    }

    /** Every tracker of the run is where its path says, under its parent, and looks as `nodes` says. */
    ghost predicate AllPlaced()
      reads this, trackers
    {
      Indexed() && Mirrored() && Parented()
    }

    ghost predicate Indexed()
      reads this, trackers
    {
      && at.Keys == nodes.Keys
      && (forall p :: p in at ==> at[p] in trackers && at[p].path == p)
      && (forall t :: t in trackers ==> t.ctx == this && t.path in at && at[t.path] == t)
    }

    ghost predicate Mirrored()
      reads this, trackers
    {
      forall t :: t in trackers ==> t.ctx == this && t.path in nodes && t.LooksLike(nodes[t.path])
    }

    ghost predicate Parented()
      reads this
    {
      forall t {:trigger t.parent} :: t in trackers ==>
        if t.parent == null then t.path == []
        else t.parent in trackers && t.path != [] && t.parent.path == Parent(t.path)
    }

    lemma {:induction false} Unpack()
      requires Valid()
      ensures AllPlaced()
    {
      assert Unfold(0);
    }

    /** The path of the current tracker. */
    ghost function Here(): Path
      requires currentTracker != null
      reads this
    {
      currentTracker.path
    }

    method StartRun()
      modifies this
      ensures Valid() && fresh(trackers) && currentTracker == null && runState == InCycle
      ensures nodes == map[[] := Node([], NotStarted)]
    {
      rootTracker := new SectionTracker(NameAndLocation("{root}", "", 0), this, null);
      currentTracker := null;
      runState := InCycle;
      trackers := {rootTracker};
      at := map[[] := rootTracker];
      nodes := map[[] := Node([], NotStarted)];
    }

    method StartCycle()
      requires Valid()
      modifies this`currentTracker, this`runState
      ensures Valid() && currentTracker != null && Here() == [] && runState == InCycle
    {
      Unpack();
      currentTracker := rootTracker;
      runState := InCycle;
    }

    method CompleteCycle()
      requires Valid()
      modifies this`runState
      ensures Valid() && runState == CompletedCycle
    {
      runState := CompletedCycle;
    }

    predicate CompletedACycle()
      reads this
    {
      runState == CompletedCycle
    }

    method SetCurrentTracker(tracker: SectionTracker)
      requires Valid() && tracker.Placed(this)
      modifies this`currentTracker
      ensures Valid() && currentTracker == tracker
    {
      currentTracker := tracker;
    }
  }

  class SectionTracker {
    const nameAndLocation: NameAndLocation
    const ctx: TrackerContext
    const parent: SectionTracker?
    var children: seq<SectionTracker>
    var runState: CycleState
    ghost const path: Path

    constructor (nameAndLocation: NameAndLocation, ctx: TrackerContext, parent: SectionTracker?)
      ensures this.nameAndLocation == nameAndLocation && this.ctx == ctx && this.parent == parent
      ensures children == [] && runState == NotStarted
      ensures path == if parent == null then [] else parent.path + [nameAndLocation]
    {
      this.nameAndLocation, this.ctx, this.parent := nameAndLocation, ctx, parent;
      children, runState := [], NotStarted;
      path := if parent == null then [] else parent.path + [nameAndLocation];
    }

    /** This tracker belongs to the run of `c`, which knows its state. */
    ghost predicate Placed(c: TrackerContext)
      reads c, this
    {
      this in c.trackers && ctx == c && path in c.nodes && c.nodes[path].state == runState
    }

    lemma {:induction false} StillPlaced(c: TrackerContext)
      requires c.Valid() && this in c.trackers
      ensures Placed(c)
    {
      c.Unpack();
    }

    lemma {:induction false} ParentPlaced()
      requires ctx.Valid() && Placed(ctx)
      ensures parent == null <==> path == []
      ensures parent != null ==> parent.Placed(ctx) && parent.path == Parent(path)
    {
      ctx.Unpack();
    }

    ghost predicate LooksLike(n: Node)
      reads this, ctx
    {
      && runState == n.state
      && |children| == |n.children|
      && (forall i :: 0 <= i < |children| ==>
            && children[i] in ctx.trackers
            && children[i].nameAndLocation == n.children[i]
            && children[i].path == path + [n.children[i]])
    }

    predicate IsComplete() reads this { runState.IsComplete() }

    predicate IsSuccessfullyCompleted() reads this { runState == CompletedSuccessfully }

    predicate IsOpen() reads this { runState.IsOpen() }

    method FindChild(id: NameAndLocation) returns (r: SectionTracker?)
      requires ctx.Valid() && Placed(ctx)
      ensures r == null <==> id !in ctx.nodes[path].children
      ensures r != null ==> r.Placed(ctx) && r.path == path + [id] && r.parent == this
    {
      ctx.Unpack();
      var i := 0;
      while i < |children|
        invariant 0 <= i <= |children|
        invariant forall k :: 0 <= k < i ==> children[k].nameAndLocation != id
      {
        if children[i].nameAndLocation == id {
          assert Parent(children[i].path) == path;
          return children[i];
        }
        i := i + 1;
      }
      return null;
    }

    lemma {:induction false} ChildLooksLike(i: nat)
      requires ctx.Valid() && Placed(ctx) && i < |children|
      ensures |ctx.nodes[path].children| == |children|
      ensures path + [ctx.nodes[path].children[i]] in ctx.nodes
      ensures ctx.nodes[path + [ctx.nodes[path].children[i]]].state == children[i].runState
    {
      ctx.Unpack();
    }

    /** Assigns `runState`, in step with the abstract value. */
    method SetState(st: CycleState)
      requires ctx.Valid() && Placed(ctx)
      modifies this`runState, ctx`nodes
      ensures ctx.Valid() && runState == st
      ensures ctx.nodes == SetNode(old(ctx.nodes), path, st)
    {
      runState := st;
      ctx.nodes := SetNode(ctx.nodes, path, st);
      ValidAfterSetting(st);
    }

    twostate lemma {:induction false} ValidAfterSetting(st: CycleState)
      requires old(ctx.Valid()) && old(Placed(ctx)) && runState == st
      requires ctx.nodes == SetNode(old(ctx.nodes), path, st) && children == old(children)
      requires forall t :: t in old(ctx.trackers) && t != this ==> t.children == old(t.children) && t.runState == old(t.runState)
      requires ctx.trackers == old(ctx.trackers) && ctx.at == old(ctx.at)
      requires ctx.rootTracker == old(ctx.rootTracker) && ctx.currentTracker == old(ctx.currentTracker)
      ensures ctx.Valid()
    {
      assert Unfold(0);
      assert LooksLike(ctx.nodes[path]);
      forall t | t in ctx.trackers && t != this ensures t.path in ctx.nodes && t.LooksLike(ctx.nodes[t.path]) {
        assert t.path != path && ctx.nodes[t.path] == old(ctx.nodes)[t.path];
      }
      assert ctx.Mirrored() && ctx.Indexed() && ctx.Parented();
    }

    twostate lemma {:induction false} PlacedAfterAdding(child: SectionTracker)
      requires old(ctx.AllPlaced()) && old(Placed(ctx)) && WellLinked(old(ctx.nodes))
      requires child.parent == this && child.ctx == ctx && child.path == path + [child.nameAndLocation] && child != this
      requires child.children == [] && child.runState == NotStarted
      requires child.nameAndLocation !in old(ctx.nodes)[path].children
      requires runState == old(runState) && children == old(children) + [child]
      requires forall t :: t in old(ctx.trackers) && t != this ==> t.children == old(t.children) && t.runState == old(t.runState)
      requires ctx.trackers == old(ctx.trackers) + {child}
      requires ctx.nodes == AddChildAt(old(ctx.nodes), path, child.nameAndLocation)
      requires ctx.at == old(ctx.at)[child.path := child]
      ensures ctx.AllPlaced()
    {
      assert Parent(child.path) == path;
      AddChildKeepsLinks(old(ctx.nodes), path, child.nameAndLocation);
      assert LooksLike(ctx.nodes[path]);
      forall t | t in old(ctx.trackers) && t != this ensures t.path in ctx.nodes && t.LooksLike(ctx.nodes[t.path]) {
        assert t.path != path && t.path != child.path;
        assert ctx.nodes[t.path] == old(ctx.nodes)[t.path];
      }
      assert ctx.Mirrored() && ctx.Indexed() && ctx.Parented();
    }

    /** Adding a child keeps the context valid. */
    twostate lemma {:induction false} ValidAfterAdding(child: SectionTracker)
      requires old(ctx.Valid()) && old(Placed(ctx))
      requires child.parent == this && child.ctx == ctx && child.path == path + [child.nameAndLocation] && child != this
      requires child.children == [] && child.runState == NotStarted
      requires child.nameAndLocation !in old(ctx.nodes)[path].children
      requires runState == old(runState) && children == old(children) + [child]
      requires forall t :: t in old(ctx.trackers) && t != this ==> t.children == old(t.children) && t.runState == old(t.runState)
      requires ctx.trackers == old(ctx.trackers) + {child}
      requires ctx.nodes == AddChildAt(old(ctx.nodes), path, child.nameAndLocation)
      requires ctx.at == old(ctx.at)[child.path := child]
      requires ctx.rootTracker == old(ctx.rootTracker) && ctx.currentTracker == old(ctx.currentTracker)
      ensures ctx.Valid() && child.Placed(ctx)
    {
      assert Unfold(0);
      PlacedAfterAdding(child);
      AddChildKeepsLinks(old(ctx.nodes), path, child.nameAndLocation);
      if ctx.currentTracker != null {
        ctx.currentTracker.LooksPlaced(ctx);
      }
    }

    lemma {:induction false} LooksPlaced(c: TrackerContext)
      requires c.AllPlaced() && this in c.trackers
      ensures Placed(c)
    {}

    method AddChild(child: SectionTracker)
      requires ctx.Valid() && Placed(ctx)
      requires child.parent == this && child.ctx == ctx && child.path == path + [child.nameAndLocation] && child != this
      requires child.children == [] && child.runState == NotStarted
      requires child.nameAndLocation !in ctx.nodes[path].children
      modifies this`children, ctx`nodes, ctx`trackers, ctx`at
      ensures ctx.Valid() && child.Placed(ctx)
      ensures ctx.trackers == old(ctx.trackers) + {child}
      ensures ctx.nodes == AddChildAt(old(ctx.nodes), path, child.nameAndLocation)
    {
      children := children + [child];
      ctx.nodes := AddChildAt(ctx.nodes, path, child.nameAndLocation);
      ctx.trackers := ctx.trackers + {child};
      ctx.at := ctx.at[child.path := child];
      ValidAfterAdding(child);
    }

    method MarkAsNeedingAnotherRun()
      requires ctx.Valid() && Placed(ctx)
      modifies this`runState, ctx`nodes
      ensures ctx.Valid()
      ensures ctx.nodes == SetNode(old(ctx.nodes), path, NeedsAnotherRun)
    {
      SetState(NeedsAnotherRun);
    }

    method OpenChild()
      requires ctx.Valid() && Placed(ctx)
      modifies ctx`nodes, ctx.trackers`runState
      ensures ctx.Valid()
      ensures ctx.nodes == OpenChildAt(old(ctx.nodes), path)
      decreases |path|
    {
      if runState != ExecutingChildren {
        SetState(ExecutingChildren);
        ParentPlaced();
        if parent != null {
          parent.OpenChild();
        }
      }
    }

    method Open()
      requires ctx.Valid() && Placed(ctx)
      modifies ctx`nodes, ctx`currentTracker, ctx.trackers`runState
      ensures ctx.Valid() && ctx.currentTracker == this
      ensures ctx.nodes == OpenAt(old(ctx.nodes), path)
    {
      SetState(Executing);
      ctx.SetCurrentTracker(this);
      ParentPlaced();
      if parent != null {
        parent.OpenChild();
      }
    }

    method TryOpen()
      requires ctx.Valid() && Placed(ctx)
      modifies ctx`nodes, ctx`currentTracker, ctx.trackers`runState
      ensures ctx.Valid()
      ensures old(IsComplete()) ==> ctx.nodes == old(ctx.nodes) && ctx.currentTracker == old(ctx.currentTracker)
      ensures !old(IsComplete()) ==> ctx.nodes == OpenAt(old(ctx.nodes), path) && ctx.currentTracker == this
    {
      if !IsComplete() {
        Open();
      }
    }

    /** Whether the children seen so far leave nothing to run: the last of them is complete. */
    method NothingLeftToRun() returns (r: bool)
      requires ctx.Valid() && Placed(ctx)
      requires runState == ExecutingChildren
      ensures r == (ClosedState(ctx.nodes, path) == CompletedSuccessfully)
      ensures !r ==> ClosedState(ctx.nodes, path) == ExecutingChildren
    {
      ctx.Unpack();
      if children == [] {
        r := true;
      } else {
        ChildLooksLike(|children|-1);
        r := children[|children|-1].IsComplete();
      }
    }

    /** Makes the parent current and ends the cycle. */
    method Leave()
      requires ctx.Valid() && Placed(ctx) && path != []
      modifies ctx`currentTracker, ctx`runState
      ensures ctx.Valid() && ctx.currentTracker == parent && ctx.runState == CompletedCycle
      ensures ctx.currentTracker != null && ctx.Here() == Parent(path)
    {
      ParentPlaced();
      ctx.SetCurrentTracker(parent);
      ctx.CompleteCycle();
    }

    /** Closes this tracker, the current one. The result is false where the source throws its
        logic error. */
    method CloseCurrent() returns (ok: bool)
      requires ctx.Valid() && Placed(ctx) && path != []
      requires ctx.currentTracker == this
      modifies this`runState, ctx`nodes, ctx`currentTracker, ctx`runState
      ensures ctx.Valid()
      ensures ok == old(runState.IsOpen())
      ensures !ok ==> ctx.nodes == old(ctx.nodes)
      ensures ok ==> ctx.nodes == SetNode(old(ctx.nodes), path, ClosedState(old(ctx.nodes), path))
      ensures ok ==> ctx.currentTracker == parent && ctx.runState == CompletedCycle
      ensures ok ==> ctx.currentTracker != null && ctx.Here() == Parent(path)
    {
      match runState {
        case NotStarted | CompletedSuccessfully | Failed =>
          return false;
        case NeedsAnotherRun =>
        case Executing =>
          SetState(CompletedSuccessfully);
        case ExecutingChildren =>
          var done := NothingLeftToRun();
          if done {
            SetState(CompletedSuccessfully);
          }
      }
      Leave();
      ok := true;
    }

    /** A current tracker that is not this one, but at or below it, is below it. */
    lemma {:induction false} StillBelow()
      requires ctx.Valid() && this in ctx.trackers && ctx.currentTracker != null && path <= ctx.Here()
      requires ctx.currentTracker != this
      ensures ctx.Here() != [] && path <= Parent(ctx.Here()) && ctx.currentTracker.ctx == ctx
    {
      ctx.Unpack();
      assert ctx.at[ctx.Here()] == ctx.currentTracker && ctx.at[path] == this;
      assert path != ctx.Here() && ctx.Here()[..|path|] == path;
    }

    /** Closes this tracker, first closing any tracker below it that is still open. */
    method Close() returns (ok: bool)
      requires ctx.Valid() && Placed(ctx) && path != []
      requires ctx.currentTracker != null && path <= ctx.Here()
      modifies ctx`nodes, ctx`currentTracker, ctx`runState, ctx.trackers`runState
      ensures ctx.Valid()
      ensures (ctx.nodes, ok) == CloseUpTo(old(ctx.nodes), old(ctx.Here()), path)
      ensures ok ==> ctx.currentTracker == parent && ctx.runState == CompletedCycle
      ensures ok ==> ctx.currentTracker != null && ctx.Here() == Parent(path)
    {
      while ctx.currentTracker != this
        invariant ctx.Valid()
        invariant ctx.currentTracker != null && path <= ctx.Here()
        invariant CloseUpTo(ctx.nodes, ctx.Here(), path) == CloseUpTo(old(ctx.nodes), old(ctx.Here()), path)
        decreases |ctx.Here()|
      {
        StillBelow();
        ok := ctx.currentTracker.CloseCurrent();
        if !ok {
          return;
        }
      }
      ok := CloseCurrent();
    }

    method MarkParent()
      requires ctx.Valid() && Placed(ctx) && path != []
      modifies ctx`nodes, ctx.trackers`runState
      ensures ctx.Valid()
      ensures ctx.nodes == SetNode(old(ctx.nodes), Parent(path), NeedsAnotherRun)
    {
      ParentPlaced();
      parent.MarkAsNeedingAnotherRun();
    }

    method Fail()
      requires ctx.Valid() && Placed(ctx) && path != []
      modifies ctx`nodes, ctx`currentTracker, ctx`runState, ctx.trackers`runState
      ensures ctx.Valid() && ctx.currentTracker == parent && ctx.runState == CompletedCycle
      ensures ctx.currentTracker != null && ctx.Here() == Parent(path)
      ensures ctx.nodes == FailAt(old(ctx.nodes), path)
    {
      SetState(Failed);
      MarkParent();
      StillPlaced(ctx);
      Leave();
    }

    /** The child `id` of this tracker, made if need be. */
    method FindOrAddChild(id: NameAndLocation) returns (section: SectionTracker)
      requires ctx.Valid() && Placed(ctx)
      modifies this`children, ctx`nodes, ctx`trackers, ctx`at
      ensures ctx.Valid() && section.Placed(ctx) && section.ctx == ctx
      ensures section.path == path + [id] && section.parent == this
      ensures old(ctx.trackers) <= ctx.trackers && fresh(ctx.trackers - old(ctx.trackers))
      ensures ctx.nodes == AddChildAt(old(ctx.nodes), path, id)
    {
      var child := FindChild(id);
      if child != null {
        section := child;
      } else {
        section := new SectionTracker(id, ctx, this);
        AddChild(section);
      }
    }

    /** The tracker of the section `id` below the current one, opened unless it is complete or the
        cycle is over. */
    static method Acquire(ctx: TrackerContext, id: NameAndLocation) returns (section: SectionTracker)
      requires ctx.Valid() && ctx.currentTracker != null
      modifies ctx`nodes, ctx`trackers, ctx`at, ctx`currentTracker, ctx.trackers
      ensures ctx.Valid() && section.Placed(ctx) && section.ctx == ctx
      ensures section.path in ctx.nodes && section.runState == ctx.nodes[section.path].state
      ensures section.path == old(ctx.Here()) + [id] && section.parent == old(ctx.currentTracker)
      ensures old(ctx.trackers) <= ctx.trackers && fresh(ctx.trackers - old(ctx.trackers))
      ensures
        var m := AddChildAt(old(ctx.nodes), old(ctx.Here()), id);
        var c := old(ctx.Here()) + [id];
        if old(ctx.CompletedACycle()) || m[c].state.IsComplete()
        then ctx.nodes == m && ctx.currentTracker == old(ctx.currentTracker)
        else ctx.nodes == OpenAt(m, c) && ctx.currentTracker == section
    {
      section := ctx.currentTracker.FindOrAddChild(id);
      if !ctx.CompletedACycle() {
        section.TryOpen();
        section.StillPlaced(ctx);
      }
    }
  }
}
