/** The mutator of the GC stress test: random operations that rewrite references, and the walk
    that checks the generation of everything reachable. */
module GCStress {
  import opened GCHeap
  import opened GCSteps

  const STACK_ROOT_COUNT: nat := 50
  const GLOBAL_ROOT_COUNT: nat := 50

  /** How many of `refs` refer to `o`. */
  function Holders(refs: seq<Ref>, o: TestObject): nat
  {
    if refs == [] then 0 else Holds(refs[0], o) + Holders(refs[1..], o)
  }

  function Holds(r: Ref, o: TestObject): nat
  {
    if Target(r) == o then 1 else 0
  }

  lemma {:induction false} HoldersAfterUpdate(refs: seq<Ref>, i: nat, r: Ref, o: TestObject)
    requires i < |refs|
    ensures Holders(refs[i := r], o) + Holds(refs[i], o) == Holders(refs, o) + Holds(r, o)
  {
    if i > 0 {
      HoldersAfterUpdate(refs[1..], i - 1, r, o);
      assert refs[i := r][1..] == refs[1..][i-1 := r];
    } else {
      assert refs[i := r][1..] == refs[1..];
    }
  }

  lemma {:induction false} HeldIffTarget(refs: seq<Ref>, o: TestObject)
    ensures Holders(refs, o) > 0 <==> o in Targets(refs)
  {
    if refs != [] {
      HeldIffTarget(refs[1..], o);
      if o in Targets(refs) {
        var i :| 0 <= i < |refs| && refs[i].Ref? && refs[i].target == o;
        if i > 0 {
          assert refs[1..][i-1] == refs[i];
        }
      }
      if o in Targets(refs[1..]) {
        var i :| 0 <= i < |refs[1..]| && refs[1..][i].Ref? && refs[1..][i].target == o;
        assert refs[i+1] == refs[1..][i];
      }
    }
  }

  ghost predicate Unfold(k: int) { true }

  ghost predicate UnfoldStamps(k: int) { true }

  ghost predicate UnfoldPins(k: int) { true }

  class Stress {
    var stackRoots: seq<Ref>
    var globalRoots: seq<Ref>
    var pins: multiset<TestObject>      // the recycler's pin counts
    var currentGeneration: nat
    var verified: bool                  // no VerifyCondition has failed so far
    ghost var heap: set<TestObject>     // allocated and not yet freed

    // the statistics of a walk
    const headerSize: Tally -> nat
    const wordSize: nat
    var walkObjectCount: nat
    var walkBytes: map<Tally, nat>
    var currentWalkDepth: nat
    var maxWalkDepth: nat
    ghost var stamped: set<TestObject>  // the objects this walk has stamped

    // ----- what is live -----

    ghost function Roots(): set<TestObject>
      reads this`stackRoots, this`globalRoots
    {
      Targets(stackRoots) + Targets(globalRoots)
    }

    ghost function Live(): set<TestObject>
      reads this`stackRoots, this`globalRoots, this`heap, heap`references
    {
      set o | o in heap && Reachable(Roots(), heap, o)
    }

    /** The places of the roots table and of the objects in `s` refer only to objects in `s`. This stays
        folded, so that it is looked into only where a proof asks for it with `LookInside`. */
    ghost predicate Contains(s: set<TestObject>)
      reads this`stackRoots, this`globalRoots, this`heap, heap`references
    {
      s <= heap && (forall k: int {:trigger Unfold(k)} :: Unfold(k) ==> Inside(s))
    }

    ghost predicate Inside(s: set<TestObject>)
      reads this`stackRoots, this`globalRoots, this`heap, heap`references
    {
      && |stackRoots| == STACK_ROOT_COUNT && |globalRoots| == GLOBAL_ROOT_COUNT
      && (forall i :: 0 <= i < |stackRoots| ==> stackRoots[i].Ref? ==> !stackRoots[i].tagged && stackRoots[i].target in s)
      && (forall i :: 0 <= i < |globalRoots| ==> globalRoots[i].Ref? ==> !globalRoots[i].tagged && globalRoots[i].target in s)
      && s <= heap
      && (forall o :: o in s ==> o.RefersOnlyTo(s) && o.WellFormed() && o.count > 0)
    }

    lemma {:induction false} LookInside(s: set<TestObject>)
      requires Contains(s)
      ensures Inside(s)
    {
      assert Unfold(0);
    }

    /** `Contains`, with every object in `s` of the current generation and the pins as they should be. */
    ghost predicate Sound(s: set<TestObject>)
      reads this`stackRoots, this`globalRoots, this`heap, this`pins, this`currentGeneration, heap
    {
      Contains(s) && Current(s) && PinsCounted()
    }

    ghost predicate Current(s: set<TestObject>)
      requires s <= heap
      reads this`heap, this`currentGeneration, heap`generation
    {
      forall k: int {:trigger UnfoldStamps(k)} :: UnfoldStamps(k) ==> OfGeneration(s)
    }

    ghost predicate OfGeneration(s: set<TestObject>)
      requires s <= heap
      reads this`heap, this`currentGeneration, heap`generation
    {
      && (forall o :: o in s ==> o.generation == currentGeneration)
      && (forall o :: o in heap ==> o.generation <= currentGeneration)
    }

    lemma {:induction false} LookAtGenerations(s: set<TestObject>)
      requires s <= heap && Current(s)
      ensures OfGeneration(s)
    {
      assert UnfoldStamps(0);
    }

    ghost predicate PinsCounted()
      reads this`globalRoots, this`heap, this`pins
    {
      forall k: int {:trigger UnfoldPins(k)} :: UnfoldPins(k) ==> PinsRight()
    }

    /** Every object is pinned once for each global root that refers to it. */
    ghost predicate PinsRight()
      reads this`globalRoots, this`heap, this`pins
    {
      && (forall o :: o in pins ==> o in heap)
      && (forall o :: o in heap ==> pins[o] == Holders(globalRoots, o))
    }

    lemma {:induction false} LookAtPins()
      requires PinsCounted()
      ensures PinsRight()
    {
      assert UnfoldPins(0);
    }

    ghost predicate Valid()
      reads this`stackRoots, this`globalRoots, this`heap, this`pins, this`currentGeneration, heap
    {
      Sound(Live())
    }

    lemma {:induction false} RootsIn(s: set<TestObject>)
      requires Contains(s)
      ensures Roots() <= s
    {
      LookInside(s);
    }

    /** Any set that is sound contains what is live, and so what is live is sound. */
    lemma {:induction false} Settle(s: set<TestObject>)
      requires Sound(s)
      ensures Valid() && Live() <= s
    {
      LookInside(s);
      LookAtGenerations(s);
      RootsIn(s);
      forall o | o in Live() ensures o in s {
        ReachableClosed(Roots(), heap, s, o);
      }
      RootsReachable(Roots(), heap);
      forall o, i | o in Live() && 0 <= i < |o.references| && o.references[i].Ref?
        ensures o.references[i].target in Live()
      {
        ReachableStep(Roots(), heap, o, i);
      }
    }

    // ----- locations -----

    /** A root, or a slot that an object in `s` hands out. */
    ghost predicate PlaceIn(p: Place, s: set<TestObject>)
      reads this`stackRoots, this`globalRoots, s`references
    {
      match p
      case StackRoot(i) => i < |stackRoots|
      case GlobalRoot(i) => i < |globalRoots|
      case Slot(host, i) => host in s && i < |host.references| && !host.kind.HidesReferences()
    }

    ghost function Read(p: Place): TestObject?
      reads this`stackRoots, this`globalRoots, (if p.Slot? then {p.host} else {})`references
    {
      match p
      case StackRoot(i) => if i < |stackRoots| then Target(stackRoots[i]) else null
      case GlobalRoot(i) => if i < |globalRoots| then Target(globalRoots[i]) else null
      case Slot(host, i) => if i < |host.references| then Target(host.references[i]) else null
    }

    /** The places of the roots table and of the objects in `hosts`. */
    ghost function Places(hosts: set<TestObject>): set<Place>
      reads this`stackRoots, this`globalRoots, hosts`references
    {
      (set i: nat | i < |stackRoots| :: StackRoot(i))
      + (set i: nat | i < |globalRoots| :: GlobalRoot(i))
      + (set h, i: nat | h in hosts && i < |h.references| :: Slot(h, i))
    }

    /** What every place refers to. */
    ghost function Contents(hosts: set<TestObject>): Graph
      reads this`stackRoots, this`globalRoots, hosts`references
    {
      map p | p in Places(hosts) :: Read(p)
    }

    /** The state between two steps. */
    ghost function Now(): Snapshot
      reads this, heap
    {
      Snapshot(heap, Live(), Contents(heap), currentGeneration, Counters(walkObjectCount, walkBytes))
    }

    lemma {:induction false} PlaceListed(p: Place, s: set<TestObject>)
      requires PlaceIn(p, s)
      ensures p in Places(s)
    {}

    method Verify(condition: bool)
      modifies this`verified
      ensures verified == (old(verified) && condition)
    {
      verified := verified && condition;
    }

    /** The reference at `p`, untagged if it is kept tagged. */
    method Get(p: Place, ghost s: set<TestObject>) returns (o: TestObject?)
      requires Contains(s) && PlaceIn(p, s)
      modifies this`verified
      ensures o == Read(p) && verified == old(verified)
      ensures o != null ==> o in s
    {
      LookInside(s);
      match p
      case StackRoot(i) => o := Target(stackRoots[i]);
      case GlobalRoot(i) => o := Target(globalRoots[i]);
      case Slot(host, i) =>
        assert host.RefersOnlyTo(s);
        if host.kind.TagsReferences() {
          o := Untag(host.references[i]);
        } else {
          o := Target(host.references[i]);
        }
    }

    method Untag(r: Ref) returns (o: TestObject?)
      modifies this`verified
      ensures o == Target(r)
      ensures verified == (old(verified) && (r.Null? || r.tagged))
    {
      if r.Null? {
        return null;
      }
      Verify(r.tagged);
      o := r.target;
    }

    /** Writes `value` at `p`, moving the pin when `p` is a global root. */
    method Set(p: Place, value: TestObject?, ghost s: set<TestObject>, ghost hosts: set<TestObject>)
      requires Sound(s) && PlaceIn(p, s)
      requires value != null ==> value in s
      requires p.Slot? ==> p.host in hosts
      modifies this`stackRoots, this`globalRoots, this`pins, heap`references
      ensures Sound(s)
      ensures |stackRoots| == old(|stackRoots|) && |globalRoots| == old(|globalRoots|)
      ensures forall h :: h in heap ==> |h.references| == old(|h.references|)
      ensures Contents(hosts) == old(Contents(hosts))[p := value]
    {
      LookInside(s);
      match p {
      case StackRoot(i) =>
        SetStackRoot(i, value, s, hosts);
      case GlobalRoot(i) =>
        SetGlobalRoot(i, value, s, hosts);
      case Slot(host, i) =>
        SetSlot(host, i, value, s, hosts);
      }
    }

    method SetStackRoot(i: nat, value: TestObject?, ghost s: set<TestObject>, ghost hosts: set<TestObject>)
      requires Sound(s) && i < |stackRoots| && (value != null ==> value in s)
      modifies this`stackRoots
      ensures Sound(s) && |stackRoots| == old(|stackRoots|)
      ensures Contents(hosts) == old(Contents(hosts))[StackRoot(i) := value]
    {
      LookInside(s);
      stackRoots := stackRoots[i := Plain(value)];
      assert Places(hosts) == old(Places(hosts));
    }

    method SetGlobalRoot(i: nat, value: TestObject?, ghost s: set<TestObject>, ghost hosts: set<TestObject>)
      requires Sound(s) && i < |globalRoots| && (value != null ==> value in s)
      modifies this`globalRoots, this`pins
      ensures Sound(s) && |globalRoots| == old(|globalRoots|)
      ensures Contents(hosts) == old(Contents(hosts))[GlobalRoot(i) := value]
    {
      LookInside(s);
      SetRooted(i, value);
      assert Places(hosts) == old(Places(hosts));
    }

    method SetSlot(host: TestObject, i: nat, value: TestObject?, ghost s: set<TestObject>, ghost hosts: set<TestObject>)
      requires Sound(s) && host in s && host in hosts && i < |host.references| && !host.kind.HidesReferences()
      requires value != null ==> value in s
      modifies host`references
      ensures Sound(s) && |host.references| == old(|host.references|)
      ensures Contents(hosts) == old(Contents(hosts))[Slot(host, i) := value]
    {
      LookInside(s);
      WriteSlot(host, i, if host.kind.TagsReferences() then Tag(value) else Plain(value), s);
      assert Places(hosts) == old(Places(hosts));
    }

    method WriteSlot(host: TestObject, i: nat, r: Ref, ghost s: set<TestObject>)
      requires Sound(s) && host in s && i < |host.references| && !host.kind.HidesReferences()
      requires r.Ref? ==> r.target in s && r.tagged == host.kind.TagsReferences()
      modifies host`references
      ensures Sound(s) && host.references == old(host.references)[i := r]
    {
      LookInside(s);
      assert host.RefersOnlyTo(s);
      host.references := host.references[i := r];
    }

    method SetRooted(i: nat, value: TestObject?)
      requires i < |globalRoots| && PinsCounted()
      requires globalRoots[i].Ref? ==> globalRoots[i].target in heap
      requires value != null ==> value in heap
      modifies this`globalRoots, this`pins
      ensures globalRoots == old(globalRoots)[i := Plain(value)] && PinsCounted()
    {
      LookAtPins();
      if globalRoots[i].Ref? {
        HeldIffTarget(globalRoots, globalRoots[i].target);
      }
      forall o | o in heap
        ensures Holders(globalRoots[i := Plain(value)], o) + Holds(globalRoots[i], o) == Holders(globalRoots, o) + Holds(Plain(value), o)
      {
        HoldersAfterUpdate(globalRoots, i, Plain(value), o);
      }
      Unroot(i);
      globalRoots := globalRoots[i := Plain(value)];
      Root(i);
    }

    method Unroot(i: nat)
      requires i < |globalRoots|
      requires globalRoots[i].Ref? ==> globalRoots[i].target in pins
      modifies this`pins
      ensures forall o :: o in heap ==> pins[o] == old(pins)[o] - Holds(globalRoots[i], o)
      ensures pins <= old(pins)
    {
      if globalRoots[i].Ref? {
        pins := pins - multiset{globalRoots[i].target};
      }
    }

    method Root(i: nat)
      requires i < |globalRoots|
      modifies this`pins
      ensures forall o :: o in heap ==> pins[o] == old(pins)[o] + Holds(globalRoots[i], o)
      ensures forall o :: o in pins ==> o in old(pins) || o == Target(globalRoots[i])
    {
      if globalRoots[i].Ref? {
        pins := pins + multiset{globalRoots[i].target};
      }
    }

    /** A random slot of the object, unless it has none to give. */
    method TryGetRandomLocation(found: TestObject, slot: nat) returns (ok: bool, p: Place)
      requires found.WellFormed() && found.count > 0
      ensures ok <==> found.kind !in {Leaf, RecyclerVisited(PlainLeaf), RecyclerVisited(FinalizeLeaf)}
      ensures ok ==> p == Slot(found, slot % found.count) && slot % found.count < |found.references|
    {
      p := Slot(found, slot % found.count);
      ok := !found.kind.HidesReferences();
    }

    /** Walks from a random root through random slots, never leaving `live`. How far is up to the random
        numbers; where they run out the walk stops, as it does by chance in the source. */
    method GetRandomLocation(choice: Choice, ghost live: set<TestObject>, ghost hosts: set<TestObject>) returns (p: Place)
      requires Contains(live) && live <= hosts
      modifies this`verified
      ensures PlaceIn(p, live) && p in Places(live) && verified == old(verified)
      ensures p == Located(Contents(hosts), choice)
    {
      ghost var graph := Contents(hosts);
      EntryIn(choice.root, live);
      var entry := choice.root % (STACK_ROOT_COUNT + GLOBAL_ROOT_COUNT);
      p := if entry < STACK_ROOT_COUNT then StackRoot(entry) else GlobalRoot(entry - STACK_ROOT_COUNT);
      assert p == Entry(choice.root);
      var hops := choice.hops;
      while hops != []
        invariant Contains(live) && PlaceIn(p, live) && Contents(hosts) == graph && verified == old(verified)
        invariant Destination(graph, p, hops) == Located(graph, choice)
      {
        var ok, next := GoOn(p, hops, live, hosts);
        if !ok {
          break;
        }
        p, hops := next, hops[1..];
      }
      PlaceListed(p, live);
    }

    lemma {:induction false} EntryIn(root: nat, live: set<TestObject>)
      requires Contains(live)
      ensures PlaceIn(Entry(root), live)
    {
      LookInside(live);
    }

    /** One step of the walk, if it goes on. */
    method GoOn(p: Place, hops: seq<Hop>, ghost live: set<TestObject>, ghost hosts: set<TestObject>)
      returns (ok: bool, next: Place)
      requires Contains(live) && PlaceIn(p, live) && live <= hosts && hops != []
      modifies this`verified
      ensures verified == old(verified) && Contains(live) && Contents(hosts) == old(Contents(hosts))
      ensures ok <==> !hops[0].stop && !DeadEnd(Contents(hosts), p)
      ensures ok ==> PlaceIn(next, live) && next == Slot(Contents(hosts)[p], hops[0].slot % Contents(hosts)[p].count)
      ensures Destination(Contents(hosts), p, hops) == if ok then Destination(Contents(hosts), next, hops[1..]) else p
    {
      PlaceListed(p, live);
      LookInside(live);
      next := p;
      var found := Get(p, live);
      if found == null || hops[0].stop {
        return false, p;
      }
      ok, next := TryGetRandomLocation(found, hops[0].slot);
    }

    // ----- heap operations -----

    method CreateNewObject(kind: Kind, count: nat) returns (o: TestObject)
      requires Valid() && count > 0
      modifies this`heap
      ensures fresh(o) && heap == old(heap) + {o}
      ensures o.kind == kind && o.count == count
      ensures Sound(old(Live())) && Sound(old(Live()) + {o})
      ensures Places(old(Live())) == old(Places(Live()))
      ensures Contents(old(heap)) == old(Contents(heap)) && Contents(heap) == old(Contents(heap)) + Empty(o)
    {
      ghost var live := Live();
      o := Allocate(kind, count, live);
      WithNewObject(live, o);
      WithNewPlaces(old(heap), o);
    }

    method Allocate(kind: Kind, count: nat, ghost live: set<TestObject>) returns (o: TestObject)
      requires Sound(live)
      modifies this`heap
      ensures fresh(o) && heap == old(heap) + {o} && Sound(live)
      ensures o.kind == kind && o.count == count && o.generation == currentGeneration
      ensures o.references == seq(if kind.Leaf? then 0 else count, _ => Null)
    {
      LookInside(live);
      LookAtGenerations(live);
      LookAtPins();
      o := new TestObject(kind, count, currentGeneration);
      HeldIffTarget(globalRoots, o);
      heap := heap + {o};
    }

    /** Writing to a place that the new object does not have. */
    lemma {:induction false} WriteBeside(graph: Graph, p: Place, o: TestObject, value: TestObject?)
      requires p !in Empty(o)
      ensures (graph + Empty(o))[p := value] == graph[p := value] + Empty(o)
    {}

    lemma {:induction false} WithNewObject(live: set<TestObject>, o: TestObject)
      requires Sound(live) && o in heap && o.WellFormed() && o.count > 0 && o.generation == currentGeneration
      requires forall i :: 0 <= i < |o.references| ==> o.references[i].Null?
      ensures Sound(live + {o})
    {
      LookInside(live);
      LookAtGenerations(live);
      forall x | x in live ensures x.RefersOnlyTo(live + {o}) {
        assert x.RefersOnlyTo(live);
      }
    }

    lemma {:induction false} WithNewPlaces(hosts: set<TestObject>, o: TestObject)
      requires o !in hosts && |o.references| == (if o.kind.Leaf? then 0 else o.count)
      requires forall i :: 0 <= i < |o.references| ==> o.references[i].Null?
      ensures Contents(hosts + {o}) == Contents(hosts) + Empty(o)
    {
      assert Places(hosts + {o}) == Places(hosts) + Empty(o).Keys;
    }

    /** A new object, and a random location for it in the graph as it was. */
    method CreateAndLocate(kind: Kind, count: nat, choice: Choice) returns (o: TestObject, p: Place)
      requires Valid() && count > 0
      modifies this`heap, this`verified
      ensures fresh(o) && o.kind == kind && o.count == count && heap == old(heap) + {o}
      ensures Sound(old(Live()) + {o}) && Contents(heap) == old(Contents(heap)) + Empty(o)
      ensures PlaceIn(p, old(Live())) && p in old(Places(Live())) && verified == old(verified)
      ensures p == old(Located(Contents(heap), choice))
    {
      ghost var live, hosts := Live(), heap;
      o := CreateNewObject(kind, count);
      p := LocateBeside(choice, live, hosts, live + {o});
    }

    /** A random location in `live`, which is only part of what is sound now. */
    method LocateBeside(choice: Choice, ghost live: set<TestObject>, ghost hosts: set<TestObject>, ghost more: set<TestObject>)
      returns (p: Place)
      requires Sound(live) && live <= hosts && Sound(more)
      modifies this`verified
      ensures PlaceIn(p, live) && p in old(Places(live)) && verified == old(verified)
      ensures p == old(Located(Contents(hosts), choice))
      ensures Sound(more) && Contents(heap) == old(Contents(heap)) && Places(live) == old(Places(live))
    {
      ghost var graph, places := Contents(heap), Places(live);
      p := GetRandomLocation(choice, live, hosts);
      assert Sound(more);
      assert Contents(heap) == graph;
      assert Places(live) == places;
    }

    /** Puts a new object at a random place if that is empty. */
    method InsertObject(kind: Kind, count: nat, choice: Choice) returns (o: TestObject, p: Place)
      requires Valid() && count > 0
      modifies this`stackRoots, this`globalRoots, this`pins, this`heap, this`verified, heap`references
      ensures Valid() && Live() <= old(Live()) + {o}
      ensures fresh(o) && o.kind == kind && o.count == count && heap == old(heap) + {o}
      ensures p in old(Places(Live())) && p == old(Located(Contents(heap), choice)) && verified == old(verified)
      ensures Contents(heap) == (if old(Read(p)) == null then old(Contents(heap))[p := o] else old(Contents(heap))) + Empty(o)
    {
      ghost var live, graph := Live(), Contents(heap);
      o, p := CreateAndLocate(kind, count, choice);
      PutIfEmpty(p, o, live + {o}, heap);
      WriteBeside(graph, p, o, o);
    }

    method PutIfEmpty(p: Place, o: TestObject, ghost live: set<TestObject>, ghost hosts: set<TestObject>)
      requires Sound(live) && PlaceIn(p, live) && o in live && (p.Slot? ==> p.host in hosts)
      modifies this`stackRoots, this`globalRoots, this`pins, this`verified, heap`references
      ensures Valid() && Live() <= live && verified == old(verified)
      ensures Contents(hosts) == if old(Read(p)) == null then old(Contents(hosts))[p := o] else old(Contents(hosts))
    {
      var found := Get(p, live);
      if found == null {
        Set(p, o, live, hosts);
      }
      Settle(live);
    }

    method Put(p: Place, value: TestObject?, ghost live: set<TestObject>, ghost hosts: set<TestObject>)
      requires Sound(live) && PlaceIn(p, live) && (value != null ==> value in live) && (p.Slot? ==> p.host in hosts)
      modifies this`stackRoots, this`globalRoots, this`pins, heap`references
      ensures Valid() && Live() <= live
      ensures Contents(hosts) == old(Contents(hosts))[p := value]
    {
      Set(p, value, live, hosts);
      Settle(live);
    }

    /** Puts a new object at a random place. */
    method ReplaceObject(kind: Kind, count: nat, choice: Choice) returns (o: TestObject, p: Place)
      requires Valid() && count > 0
      modifies this`stackRoots, this`globalRoots, this`pins, this`heap, this`verified, heap`references
      ensures Valid() && Live() <= old(Live()) + {o}
      ensures fresh(o) && o.kind == kind && o.count == count && heap == old(heap) + {o}
      ensures p in old(Places(Live())) && p == old(Located(Contents(heap), choice)) && verified == old(verified)
      ensures Contents(heap) == old(Contents(heap))[p := o] + Empty(o)
    {
      ghost var live, graph := Live(), Contents(heap);
      o, p := CreateAndLocate(kind, count, choice);
      Put(p, o, live + {o}, heap);
      WriteBeside(graph, p, o, o);
    }

    method DeleteObject(choice: Choice) returns (p: Place)
      requires Valid()
      modifies this`stackRoots, this`globalRoots, this`pins, this`verified, heap`references
      ensures Valid() && Live() <= old(Live())
      ensures p in old(Places(Live())) && p == old(Located(Contents(heap), choice)) && verified == old(verified)
      ensures Contents(heap) == old(Contents(heap))[p := null]
    {
      ghost var live := Live();
      p := GetRandomLocation(choice, live, heap);
      Put(p, null, live, heap);
    }

    method TwoRandomLocations(choice1: Choice, choice2: Choice, ghost live: set<TestObject>) returns (p1: Place, p2: Place)
      requires Sound(live)
      modifies this`verified
      ensures PlaceIn(p1, live) && PlaceIn(p2, live) && verified == old(verified)
      ensures Sound(live) && Contents(heap) == old(Contents(heap))
      ensures p1 in old(Places(live)) && p2 in old(Places(live))
      ensures p1 == old(Located(Contents(heap), choice1)) && p2 == old(Located(Contents(heap), choice2))
    {
      p1 := LocateBeside(choice1, live, heap, live);
      p2 := LocateBeside(choice2, live, heap, live);
    }

    /** Moves a reference between two random places, which may be the same, or such that the second
        is reached only through the first. */
    method MoveObject(choice1: Choice, choice2: Choice) returns (p1: Place, p2: Place)
      requires Valid()
      modifies this`stackRoots, this`globalRoots, this`pins, this`verified, heap`references
      ensures Valid() && Live() <= old(Live())
      ensures p1 in old(Places(Live())) && p2 in old(Places(Live())) && verified == old(verified)
      ensures p1 == old(Located(Contents(heap), choice1)) && p2 == old(Located(Contents(heap), choice2))
      ensures Contents(heap) == old(Contents(heap))[p1 := null][p2 := old(Read(p1))]
    {
      ghost var live := Live();
      p1, p2 := TwoRandomLocations(choice1, choice2, live);
      Move(p1, p2, live);
    }

    method Move(p1: Place, p2: Place, ghost live: set<TestObject>)
      requires Sound(live) && PlaceIn(p1, live) && PlaceIn(p2, live)
      modifies this`stackRoots, this`globalRoots, this`pins, this`verified, heap`references
      ensures Valid() && Live() <= live && verified == old(verified)
      ensures Contents(heap) == old(Contents(heap))[p1 := null][p2 := old(Read(p1))]
    {
      var found := Get(p1, live);
      SetBoth(p1, null, p2, found, live);
    }

    method CopyObject(choice1: Choice, choice2: Choice) returns (p1: Place, p2: Place)
      requires Valid()
      modifies this`stackRoots, this`globalRoots, this`pins, this`verified, heap`references
      ensures Valid() && Live() <= old(Live())
      ensures p1 in old(Places(Live())) && p2 in old(Places(Live())) && verified == old(verified)
      ensures p1 == old(Located(Contents(heap), choice1)) && p2 == old(Located(Contents(heap), choice2))
      ensures Contents(heap) == old(Contents(heap))[p2 := old(Read(p1))]
    {
      ghost var live := Live();
      p1, p2 := TwoRandomLocations(choice1, choice2, live);
      Copy(p1, p2, live);
    }

    method Copy(p1: Place, p2: Place, ghost live: set<TestObject>)
      requires Sound(live) && PlaceIn(p1, live) && PlaceIn(p2, live)
      modifies this`stackRoots, this`globalRoots, this`pins, this`verified, heap`references
      ensures Valid() && Live() <= live && verified == old(verified)
      ensures Contents(heap) == old(Contents(heap))[p2 := old(Read(p1))]
    {
      var found := Get(p1, live);
      Put(p2, found, live, heap);
    }

    method SwapObjects(choice1: Choice, choice2: Choice) returns (p1: Place, p2: Place)
      requires Valid()
      modifies this`stackRoots, this`globalRoots, this`pins, this`verified, heap`references
      ensures Valid() && Live() <= old(Live())
      ensures p1 in old(Places(Live())) && p2 in old(Places(Live())) && verified == old(verified)
      ensures p1 == old(Located(Contents(heap), choice1)) && p2 == old(Located(Contents(heap), choice2))
      ensures Contents(heap) == old(Contents(heap))[p1 := old(Read(p2))][p2 := old(Read(p1))]
    {
      ghost var live := Live();
      p1, p2 := TwoRandomLocations(choice1, choice2, live);
      Swap(p1, p2, live);
    }

    method Swap(p1: Place, p2: Place, ghost live: set<TestObject>)
      requires Sound(live) && PlaceIn(p1, live) && PlaceIn(p2, live)
      modifies this`stackRoots, this`globalRoots, this`pins, this`verified, heap`references
      ensures Valid() && Live() <= live && verified == old(verified)
      ensures Contents(heap) == old(Contents(heap))[p1 := old(Read(p2))][p2 := old(Read(p1))]
    {
      var found, other := GetBoth(p1, p2, live);
      SetBoth(p1, other, p2, found, live);
    }

    method GetBoth(p1: Place, p2: Place, ghost live: set<TestObject>) returns (found: TestObject?, other: TestObject?)
      requires Contains(live) && PlaceIn(p1, live) && PlaceIn(p2, live)
      modifies this`verified
      ensures found == Read(p1) && other == Read(p2) && verified == old(verified)
      ensures (found != null ==> found in live) && (other != null ==> other in live)
    {
      found := Get(p1, live);
      other := Get(p2, live);
    }

    /** Writes two places, one after the other, which may be the same. */
    method SetBoth(p1: Place, value1: TestObject?, p2: Place, value2: TestObject?, ghost live: set<TestObject>)
      requires Sound(live) && PlaceIn(p1, live) && PlaceIn(p2, live)
      requires (value1 != null ==> value1 in live) && (value2 != null ==> value2 in live)
      modifies this`stackRoots, this`globalRoots, this`pins, heap`references
      ensures Valid() && Live() <= live
      ensures Contents(heap) == old(Contents(heap))[p1 := value1][p2 := value2]
    {
      ghost var contents := Contents(heap);
      Set(p1, value1, live, heap);
      assert Contents(heap) == contents[p1 := value1];
      Put(p2, value2, live, heap);
    }

    // ----- the collector -----

    ghost function PinnedObjects(): set<TestObject>
      reads this`pins, this`heap
    {
      set o | o in heap && pins[o] > 0
    }

    /** What the collector may free: anything it does not trace from the stack and from pinned objects. */
    ghost predicate Garbage(freed: set<TestObject>)
      reads this`stackRoots, this`pins, this`heap, heap`references
    {
      freed <= heap &&
      forall o :: o in freed ==> !Traced(Targets(stackRoots) + PinnedObjects(), heap, o)
    }

    /** A collection never frees anything reachable from the roots table. */
    ghost method Collect(freed: set<TestObject>)
      requires Valid() && Garbage(freed)
      modifies this`heap
      ensures Valid() && heap == old(heap) - freed
      ensures freed !! old(Live()) && Live() == old(Live())
    {
      LookInside(Live());
      LookAtGenerations(Live());
      LookAtPins();
      forall o | o in heap ensures o in PinnedObjects() <==> o in Targets(globalRoots) {
        HeldIffTarget(globalRoots, o);
      }
      assert Targets(stackRoots) + PinnedObjects() == Roots();
      ghost var live := Live();
      LookInside(live);
      RootsIn(live);
      forall o { TracedExactly(Roots(), heap, live, o); }
      ghost var whole := heap;
      forall o { ReachableInSmallerHeap(Roots(), whole, whole - freed, o); }
      heap := heap - freed;
      assert Live() == live;
    }

    // ----- the walk -----

    /** In the middle of a walk over `live`: the objects stamped so far are of the new generation, the
        others of the one before. */
    ghost predicate Marked(live: set<TestObject>)
      reads this`stackRoots, this`globalRoots, this`heap, this`currentGeneration, this`stamped, heap
    {
      Contains(live) && stamped <= live && (forall k: int {:trigger UnfoldStamps(k)} :: UnfoldStamps(k) ==> Stamps(live))
    }

    ghost predicate Stamps(live: set<TestObject>)
      requires live <= heap
      reads this`heap, this`currentGeneration, this`stamped, heap`generation
    {
      && (forall o :: o in heap ==> o.generation <= currentGeneration)
      && (forall o :: o in live ==> o.generation + (if o in stamped then 0 else 1) == currentGeneration)
    }

    lemma {:induction false} LookAtStamps(live: set<TestObject>)
      requires Marked(live)
      ensures Stamps(live)
    {
      assert UnfoldStamps(0);
    }

    ghost predicate Counted()
      reads this`stamped, this`walkObjectCount, this`currentWalkDepth, this`maxWalkDepth
    {
      walkObjectCount == |stamped| && currentWalkDepth <= maxWalkDepth <= walkObjectCount
      && (stamped != {} ==> maxWalkDepth > 0)
    }

    ghost predicate Stamping(live: set<TestObject>)
      reads this, heap
    {
      Marked(live) && Counted()
    }

    /** The byte counters are those of the objects in `s`. */
    ghost predicate Tallied(s: set<TestObject>)
      reads this`walkBytes
    {
      forall t: Tally :: t in walkBytes && walkBytes[t] == Total(s, t, headerSize, wordSize)
    }

    method BeginWalk(ghost live: set<TestObject>)
      requires Sound(live)
      modifies this`currentGeneration, this`walkObjectCount, this`walkBytes, this`currentWalkDepth, this`maxWalkDepth, this`stamped
      ensures Stamping(live) && Tallied({}) && stamped == {} && currentWalkDepth == 0
      ensures currentGeneration == old(currentGeneration) + 1
    {
      LookAtGenerations(live);
      currentGeneration := currentGeneration + 1;
      walkObjectCount := 0;
      walkBytes := map[LeafBytes := 0, ScannedBytes := 0, BarrierBytes := 0, TrackedBytes := 0,
                       FinalizedBytes := 0, RecyclerVisitedBytes := 0];
      maxWalkDepth := 0;
      currentWalkDepth := 0;
      stamped := {};
      forall t: Tally ensures t in walkBytes && walkBytes[t] == 0 {
        assert t.LeafBytes? || t.ScannedBytes? || t.BarrierBytes? || t.TrackedBytes? || t.FinalizedBytes? || t.RecyclerVisitedBytes?;
      }
    }

    /** Stamps `o` and what is reachable from it, as far as it is not stamped yet. */
    method WalkReference(o: TestObject?, ghost live: set<TestObject>)
      requires Stamping(live) && Tallied(stamped) && (o != null ==> o in live)
      modifies this`walkObjectCount, this`walkBytes, this`currentWalkDepth, this`maxWalkDepth, this`stamped, this`verified, live`generation
      ensures Stamping(live) && Tallied(stamped) && old(stamped) <= stamped && (o != null ==> o in stamped)
      ensures forall x :: x in stamped - old(stamped) ==> x.RefersOnlyTo(stamped)
      ensures currentWalkDepth == old(currentWalkDepth) && verified == old(verified)
      ensures maxWalkDepth >= old(maxWalkDepth) && (o != null && o !in old(stamped) ==> maxWalkDepth > currentWalkDepth)
      decreases live - stamped, 0
    {
      if o != null {
        LookAtStamps(live);
        if o.generation != currentGeneration {
          Stamp(o, live);
          DoWalkObject(o, live);
          currentWalkDepth := currentWalkDepth - 1;
        }
      }
    }

    /** Stamps an object not seen yet in this walk, which has to be of the generation before. */
    method Stamp(o: TestObject, ghost live: set<TestObject>)
      requires Stamping(live) && Tallied(stamped) && o in live && o.generation != currentGeneration
      modifies this`walkObjectCount, this`currentWalkDepth, this`maxWalkDepth, this`stamped, this`verified, o`generation
      ensures Stamping(live) && o !in old(stamped) && stamped == old(stamped) + {o} && Tallied(stamped - {o})
      ensures currentWalkDepth == old(currentWalkDepth) + 1 && verified == old(verified)
      ensures maxWalkDepth == if currentWalkDepth > old(maxWalkDepth) then currentWalkDepth else old(maxWalkDepth)
    {
      NextGeneration(o, live);
      CountOne();
    }

    method CountOne()
      requires walkObjectCount + 1 == |stamped| && currentWalkDepth <= maxWalkDepth <= walkObjectCount
      modifies this`walkObjectCount, this`currentWalkDepth, this`maxWalkDepth
      ensures Counted() && currentWalkDepth == old(currentWalkDepth) + 1
      ensures maxWalkDepth == if currentWalkDepth > old(maxWalkDepth) then currentWalkDepth else old(maxWalkDepth)
    {
      walkObjectCount := walkObjectCount + 1;
      currentWalkDepth := currentWalkDepth + 1;
      maxWalkDepth := if currentWalkDepth > maxWalkDepth then currentWalkDepth else maxWalkDepth;
    }

    method NextGeneration(o: TestObject, ghost live: set<TestObject>)
      requires Marked(live) && o in live && o.generation != currentGeneration
      modifies this`stamped, this`verified, o`generation
      ensures Marked(live) && o !in old(stamped) && stamped == old(stamped) + {o} && stamped - {o} == old(stamped)
      ensures |stamped| == |old(stamped)| + 1 && verified == old(verified)
    {
      LookAtStamps(live);
      o.generation := o.generation + 1;
      stamped := stamped + {o};
      Verify(o.generation == currentGeneration);
    }

    /** Counts the bytes of `o` and walks its references. */
    method DoWalkObject(o: TestObject, ghost live: set<TestObject>)
      requires Stamping(live) && o in stamped && Tallied(stamped - {o})
      modifies this`walkObjectCount, this`walkBytes, this`currentWalkDepth, this`maxWalkDepth, this`stamped, this`verified, live`generation
      ensures Stamping(live) && Tallied(stamped) && old(stamped) <= stamped
      ensures forall x :: x in stamped - old(stamped) + {o} ==> x.RefersOnlyTo(stamped)
      ensures currentWalkDepth == old(currentWalkDepth) && maxWalkDepth >= old(maxWalkDepth) && verified == old(verified)
      decreases live - stamped, 2
    {
      TallyOne(o);
      var i := 0;
      while i < |o.references|
        invariant 0 <= i <= |o.references| && o in live
        invariant Stamping(live) && Tallied(stamped) && old(stamped) <= stamped
        invariant forall x :: x in stamped - old(stamped) ==> x.RefersOnlyTo(stamped)
        invariant forall j :: 0 <= j < i ==> o.references[j].Ref? ==> o.references[j].target in stamped
        invariant currentWalkDepth == old(currentWalkDepth) && maxWalkDepth >= old(maxWalkDepth) && verified == old(verified)
      {
        ghost var before := stamped;
        WalkSlot(o, i, live);
        forall x | x in before - old(stamped) ensures x.RefersOnlyTo(stamped) {
          assert x.RefersOnlyTo(before);
        }
        i := i + 1;
      }
    }

    /** Walks the reference in one slot, untagged if it is kept tagged. */
    method WalkSlot(o: TestObject, i: nat, ghost live: set<TestObject>)
      requires Stamping(live) && Tallied(stamped) && o in live && i < |o.references|
      modifies this`walkObjectCount, this`walkBytes, this`currentWalkDepth, this`maxWalkDepth, this`stamped, this`verified, live`generation
      ensures Stamping(live) && Tallied(stamped) && old(stamped) <= stamped
      ensures o.references[i].Ref? ==> o.references[i].target in stamped
      ensures forall x :: x in stamped - old(stamped) ==> x.RefersOnlyTo(stamped)
      ensures currentWalkDepth == old(currentWalkDepth) && maxWalkDepth >= old(maxWalkDepth) && verified == old(verified)
      decreases live - stamped, 1
    {
      LookInside(live);
      assert o.RefersOnlyTo(live);
      var target := Target(o.references[i]);
      if o.kind.TagsReferences() {
        target := Untag(o.references[i]);
      }
      WalkReference(target, live);
    }

    method TallyOne(o: TestObject)
      requires o in stamped && Tallied(stamped - {o})
      modifies this`walkBytes
      ensures Tallied(stamped)
    {
      var t := TallyOf(o.kind);
      forall u: Tally ensures Total(stamped, u, headerSize, wordSize) ==
        Total(stamped - {o}, u, headerSize, wordSize) + (if TallyOf(o.kind) == u then Size(o, headerSize, wordSize) else 0)
      {
        TotalWithOneMore(stamped - {o}, o, u, headerSize, wordSize);
        assert stamped - {o} + {o} == stamped;
      }
      walkBytes := walkBytes[t := walkBytes[t] + Size(o, headerSize, wordSize)];
    }

    method EndWalk()
      modifies this`verified
      ensures verified == (old(verified) && currentWalkDepth == 0)
    {
      Verify(currentWalkDepth == 0);
    }

    /** Walks everything reachable from the roots table; no check fails, and what is counted is
        exactly what is reachable. */
    method WalkHeap()
      requires Valid()
      modifies this`currentGeneration, this`walkObjectCount, this`walkBytes, this`currentWalkDepth, this`maxWalkDepth, this`stamped, this`verified, heap`generation
      ensures Valid() && Live() == old(Live()) && verified == old(verified)
      ensures currentGeneration == old(currentGeneration) + 1
      ensures walkObjectCount == |Live()| && Tallied(Live())
      ensures currentWalkDepth == 0 && maxWalkDepth <= walkObjectCount && (Live() != {} ==> maxWalkDepth > 0)
      ensures forall o :: o in heap && o !in Live() ==> o.generation == old(o.generation)
    {
      ghost var live := Live();
      WalkAll(live);
      EndWalk();
      StampedSound(live);
    }

    method WalkAll(ghost live: set<TestObject>)
      requires Sound(live) && live == Live()
      modifies this`currentGeneration, this`walkObjectCount, this`walkBytes, this`currentWalkDepth, this`maxWalkDepth, this`stamped, this`verified, live`generation
      ensures Stamping(live) && stamped == live && Tallied(live) && currentWalkDepth == 0 && verified == old(verified)
      ensures currentGeneration == old(currentGeneration) + 1
    {
      BeginWalk(live);
      WalkRoots(live);
      AllStamped(live);
    }

    lemma {:induction false} AllStamped(live: set<TestObject>)
      requires Contains(live) && live == Live() && stamped <= live
      requires Roots() <= stamped && ClosedUnderReferences(stamped)
      ensures stamped == live
    {
      forall o | o in live ensures o in stamped {
        ReachableClosed(Roots(), heap, stamped, o);
      }
    }

    /** A finished walk leaves everything of the new generation. */
    lemma {:induction false} StampedSound(live: set<TestObject>)
      requires Marked(live) && stamped == live && PinsCounted()
      ensures Sound(live)
    {
      LookAtStamps(live);
    }

    /** The `i`-th entry of the roots table: first the stack roots, then the global ones. */
    function RootAt(i: nat): Ref
      requires i < |stackRoots| + |globalRoots|
      reads this`stackRoots, this`globalRoots
    {
      if i < |stackRoots| then stackRoots[i] else globalRoots[i - |stackRoots|]
    }

    method WalkRoots(ghost live: set<TestObject>)
      requires Stamping(live) && Tallied({}) && stamped == {} && currentWalkDepth == 0
      modifies this`walkObjectCount, this`walkBytes, this`currentWalkDepth, this`maxWalkDepth, this`stamped, this`verified, live`generation
      ensures Stamping(live) && Tallied(stamped) && currentWalkDepth == 0 && verified == old(verified)
      ensures Roots() <= stamped && ClosedUnderReferences(stamped)
    {
      var i := 0;
      while i < |stackRoots| + |globalRoots|
        invariant 0 <= i <= |stackRoots| + |globalRoots|
        invariant Stamping(live) && Tallied(stamped) && ClosedUnderReferences(stamped)
        invariant forall j :: 0 <= j < i ==> RootAt(j).Ref? ==> RootAt(j).target in stamped
        invariant currentWalkDepth == 0 && verified == old(verified)
      {
        ghost var before := stamped;
        LookInside(live);
        WalkReference(Target(RootAt(i)), live);
        forall x | x in before ensures x.RefersOnlyTo(stamped) {
          assert x.RefersOnlyTo(before);
        }
        i := i + 1;
      }
      forall j | 0 <= j < |stackRoots| && stackRoots[j].Ref? ensures stackRoots[j].target in stamped {
        assert RootAt(j) == stackRoots[j];
      }
      forall j | 0 <= j < |globalRoots| && globalRoots[j].Ref? ensures globalRoots[j].target in stamped {
        assert RootAt(|stackRoots| + j) == globalRoots[j];
      }
    }

    // ----- whole runs -----

    constructor (headerSize: Tally -> nat, wordSize: nat)
      ensures Valid() && verified && heap == {}
    {
      this.headerSize, this.wordSize := headerSize, wordSize;
      stackRoots := seq(STACK_ROOT_COUNT, _ => Null);
      globalRoots := seq(GLOBAL_ROOT_COUNT, _ => Null);
      pins, currentGeneration, verified, heap := multiset{}, 0, true, {};
      walkObjectCount, walkBytes, currentWalkDepth, maxWalkDepth, stamped := 0, map[], 0, 0, {};
      new;
      Settle({});
    }

    /** One step of a run: any operation, with any random numbers, or a walk. */
    method Do(step: Step)
      requires Valid()
      modifies this, heap
      ensures Valid() && verified == old(verified) && fresh(heap - old(heap))
      ensures Does(step, old(Now()), Now(), headerSize, wordSize)
    {
      match step
      case Insert(_, _, _) =>
        DoCreate(step);
      case Replace(_, _, _) =>
        DoCreate(step);
      case Walk =>
        WalkHeap();
      case _ =>
        DoRewrite(step);
    }

    method DoCreate(step: Step)
      requires Valid() && (step.Insert? || step.Replace?)
      modifies this`stackRoots, this`globalRoots, this`pins, this`heap, this`verified, heap`references
      ensures Valid() && verified == old(verified) && fresh(heap - old(heap))
      ensures Does(step, old(Now()), Now(), headerSize, wordSize)
    {
      match step
      case Insert(kind, more, choice) =>
        var o, p := InsertObject(kind, more + 1, choice);
        assert Inserts(o, kind, more + 1, p, old(Now()), Now());
      case Replace(kind, more, choice) =>
        var o, p := ReplaceObject(kind, more + 1, choice);
        assert Replaces(o, kind, more + 1, p, old(Now()), Now());
    }

    method DoRewrite(step: Step)
      requires Valid() && (step.Delete? || step.Move? || step.Copy? || step.Swap?)
      modifies this`stackRoots, this`globalRoots, this`pins, this`verified, heap`references
      ensures Valid() && verified == old(verified)
      ensures Does(step, old(Now()), Now(), headerSize, wordSize)
    {
      match step
      case Delete(choice) =>
        var _ := DeleteObject(choice);
      case Move(choice1, choice2) =>
        var _, _ := MoveObject(choice1, choice2);
      case Copy(choice1, choice2) =>
        var _, _ := CopyObject(choice1, choice2);
      case Swap(choice1, choice2) =>
        var _, _ := SwapObjects(choice1, choice2);
    }

    /** A step, and then a collection of any garbage. */
    method DoAndCollect(step: Step) returns (ghost after: Snapshot)
      requires Valid()
      modifies this, heap
      ensures Valid() && verified == old(verified) && fresh(heap - old(heap))
      ensures Does(step, old(Now()), after, headerSize, wordSize) && Collected(after, Now())
    {
      Do(step);
      after := Now();
      CollectAny();
    }

    ghost method CollectAny()
      requires Valid()
      modifies this`heap
      ensures Valid() && heap <= old(heap) && Collected(old(Now()), Now())
    {
      assert Garbage({});
      var freed :| Garbage(freed);
      Collect(freed);
    }

    /** Any run, with a collection of any garbage between any two steps: no check ever fails,
        everything reachable is of the current generation, and every step does to the graph of objects
        what it is for. */
    method Run(steps: seq<Step>) returns (ghost befores: seq<Snapshot>, ghost afters: seq<Snapshot>)
      requires Valid()
      modifies this, heap
      ensures Valid() && verified == old(verified)
      ensures Chained(steps, befores, afters, headerSize, wordSize)
      ensures befores[0] == old(Now()) && befores[|steps|] == Now()
      ensures currentGeneration == old(currentGeneration) + Walks(steps)
    {
      befores, afters := [Now()], [];
      var k := 0;
      while k < |steps|
        invariant 0 <= k <= |steps|
        invariant Valid() && verified == old(verified) && fresh(heap - old(heap))
        invariant Chained(steps[..k], befores, afters, headerSize, wordSize)
        invariant befores[0] == old(Now()) && befores[k] == Now()
      {
        assert steps[..k+1] == steps[..k] + [steps[k]];
        ghost var after := DoAndCollect(steps[k]);
        ghost var next := Now();
        ChainedOn(steps[..k], befores, afters, headerSize, wordSize, steps[k], after, next);
        befores, afters, k := befores + [next], afters + [after], k + 1;
      }
      assert steps[..k] == steps;
      GenerationsCounted(steps, befores, afters, headerSize, wordSize);
    }
  }
}
