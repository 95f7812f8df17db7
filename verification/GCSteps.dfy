/** What one step of the GC stress test does to the graph of objects, told from what every place
    refers to before and after it. */
module GCSteps {
  import opened GCHeap

  /** A place in memory that holds a reference: an entry of one of the two root arrays, or a slot
      of an object. */
  datatype Place = StackRoot(i: nat) | GlobalRoot(i: nat) | Slot(host: TestObject, i: nat)

  /** One step of the walk to a random location: stop here, or go on to a slot of the object. */
  datatype Hop = Hop(stop: bool, slot: nat)

  /** The random numbers that choose a location. */
  datatype Choice = Choice(root: nat, hops: seq<Hop>)

  datatype Step =
    | Insert(kind: Kind, more: nat, choice: Choice)
    | Replace(kind: Kind, more: nat, choice: Choice)
    | Delete(choice: Choice)
    | Move(choice: Choice, choice2: Choice)
    | Copy(choice: Choice, choice2: Choice)
    | Swap(choice: Choice, choice2: Choice)
    | Walk

  type Graph = map<Place, TestObject?>

  /** The state between two steps: the objects allocated, those reachable from the roots table, what
      every place refers to, the generation, and what the last walk counted. */
  datatype Snapshot = Snapshot(heap: set<TestObject>, live: set<TestObject>, graph: Graph, generation: nat, counted: Counters)

  datatype Counters = Counters(objects: nat, bytes: map<Tally, nat>)

  // ----- random locations -----

  /** The entry of the roots table: fifty stack roots and then fifty global ones. */
  function Entry(root: nat): Place
  {
    var i := root % 100;
    if i < 50 then StackRoot(i) else GlobalRoot(i - 50)
  }

  /** Whether there is no way on from the object at `p`: there is none, or its kind gives no location
      inside it. */
  ghost predicate DeadEnd(graph: Graph, p: Place)
  {
    p !in graph || graph[p] == null || graph[p].count == 0
    || graph[p].kind in {Leaf, RecyclerVisited(PlainLeaf), RecyclerVisited(FinalizeLeaf)}
  }

  /** Where a walk from `p` ends. */
  ghost function Destination(graph: Graph, p: Place, hops: seq<Hop>): Place
    decreases |hops|
  {
    if hops == [] || hops[0].stop || DeadEnd(graph, p) then p
    else Destination(graph, Slot(graph[p], hops[0].slot % graph[p].count), hops[1..])
  }

  ghost function Located(graph: Graph, choice: Choice): Place
  {
    Destination(graph, Entry(choice.root), choice.hops)
  }

  /** Whether `path` goes from slot to slot as the random numbers say. */
  ghost predicate Follows(graph: Graph, path: seq<Place>, hops: seq<Hop>)
  {
    && 0 < |path| <= |hops| + 1
    && forall k :: 0 <= k < |path| - 1 ==>
      && path[k] in graph && graph[path[k]] != null && graph[path[k]].count > 0 && !hops[k].stop
      && path[k+1] == Slot(graph[path[k]], hops[k].slot % graph[path[k]].count)
  }

  /** A random location is reached from a root through objects that hand out their slots, and the walk
      ends there because the numbers say so, the place is empty, or the object has nothing to give. */
  lemma {:induction false} LocatedByPath(graph: Graph, choice: Choice) returns (path: seq<Place>)
    ensures Follows(graph, path, choice.hops)
    ensures path[0] == (if choice.root % 100 < 50 then StackRoot(choice.root % 100) else GlobalRoot(choice.root % 100 - 50))
    ensures forall k :: 0 <= k < |path| - 1 ==> HandsOut(graph[path[k]].kind)
    ensures path[|path|-1] == Located(graph, choice)
    ensures |path| == |choice.hops| + 1 || choice.hops[|path|-1].stop || Located(graph, choice) !in graph
      || graph[Located(graph, choice)] == null || graph[Located(graph, choice)].count == 0
      || !HandsOut(graph[Located(graph, choice)].kind)
  {
    path := DestinationByPath(graph, Entry(choice.root), choice.hops);
  }

  predicate HandsOut(kind: Kind)
  {
    match kind
    case Leaf => false
    case RecyclerVisited(alloc) => alloc.TraceAndFinalized? || alloc.TraceOnly?
    case _ => true
  }

  lemma {:induction false} DestinationByPath(graph: Graph, p: Place, hops: seq<Hop>) returns (path: seq<Place>)
    ensures Follows(graph, path, hops) && path[0] == p
    ensures forall k :: 0 <= k < |path| - 1 ==> HandsOut(graph[path[k]].kind)
    ensures path[|path|-1] == Destination(graph, p, hops)
    ensures |path| == |hops| + 1 || hops[|path|-1].stop || DeadEnd(graph, path[|path|-1])
    decreases |hops|
  {
    path := [p];
    if hops != [] && !hops[0].stop && !DeadEnd(graph, p) {
      var rest := DestinationByPath(graph, Slot(graph[p], hops[0].slot % graph[p].count), hops[1..]);
      path := path + rest;
    }
  }

  // ----- steps -----

  /** The places of a new object, all null. */
  ghost function Empty(o: TestObject): Graph
  {
    map i: nat | i < (if o.kind.Leaf? then 0 else o.count) :: Slot(o, i) := null
  }

  /** What a step does, for any random numbers. */
  ghost predicate Does(step: Step, a: Snapshot, b: Snapshot, header: Tally -> nat, word: nat)
  {
    match step
    case Insert(kind, more, choice) =>
      exists o :: o in b.heap && Inserts(o, kind, more + 1, Located(a.graph, choice), a, b)
    case Replace(kind, more, choice) =>
      exists o :: o in b.heap && Replaces(o, kind, more + 1, Located(a.graph, choice), a, b)
    case Delete(choice) =>
      Rewrites(a, b) && Deletes(a.graph, Located(a.graph, choice), b.graph)
    case Move(choice, choice2) =>
      Rewrites(a, b) && Moves(a.graph, Located(a.graph, choice), Located(a.graph, choice2), b.graph)
    case Copy(choice, choice2) =>
      Rewrites(a, b) && Copies(a.graph, Located(a.graph, choice), Located(a.graph, choice2), b.graph)
    case Swap(choice, choice2) =>
      Rewrites(a, b) && Swaps(a.graph, Located(a.graph, choice), Located(a.graph, choice2), b.graph)
    case Walk =>
      WalksAll(a, b, header, word)
  }

  ghost predicate Rewrites(a: Snapshot, b: Snapshot)
  {
    b.live <= a.live && b.heap == a.heap && b.generation == a.generation && b.counted == a.counted
  }

  ghost predicate Creates(o: TestObject, kind: Kind, count: nat, a: Snapshot, b: Snapshot)
  {
    && o.kind == kind && o.count == count && o !in a.heap && b.heap == a.heap + {o}
    && b.live <= a.live + {o} && b.generation == a.generation && b.counted == a.counted
  }

  ghost predicate Inserts(o: TestObject, kind: Kind, count: nat, p: Place, a: Snapshot, b: Snapshot)
  {
    Creates(o, kind, count, a, b) && p in a.graph
    && b.graph == (if a.graph[p] == null then a.graph[p := o] else a.graph) + Empty(o)
  }

  ghost predicate Replaces(o: TestObject, kind: Kind, count: nat, p: Place, a: Snapshot, b: Snapshot)
  {
    Creates(o, kind, count, a, b) && p in a.graph && b.graph == a.graph[p := o] + Empty(o)
  }

  ghost predicate Deletes(g: Graph, p: Place, after: Graph)
  {
    p in g && after == g[p := null]
  }

  /** The second place is written last, and so keeps the reference where both places are the same. */
  ghost predicate Moves(g: Graph, p: Place, q: Place, after: Graph)
  {
    p in g && q in g && after == g[p := null][q := g[p]]
  }

  ghost predicate Copies(g: Graph, p: Place, q: Place, after: Graph)
  {
    p in g && q in g && after == g[q := g[p]]
  }

  ghost predicate Swaps(g: Graph, p: Place, q: Place, after: Graph)
  {
    p in g && q in g && after == g[p := g[q]][q := g[p]]
  }

  /** A walk changes no reference, and counts exactly what is reachable. */
  ghost predicate WalksAll(a: Snapshot, b: Snapshot, header: Tally -> nat, word: nat)
  {
    && b.heap == a.heap && b.live == a.live && b.graph == a.graph && b.generation == a.generation + 1
    && b.counted.objects == |b.live|
    && forall t: Tally :: t in b.counted.bytes && b.counted.bytes[t] == Total(b.live, t, header, word)
  }

  /** A collection frees some objects that are not reachable and changes nothing else. */
  ghost predicate Collected(a: Snapshot, b: Snapshot)
  {
    && a.live <= b.heap <= a.heap && b.live == a.live
    && b.graph == (map p | p in a.graph && (p.Slot? ==> p.host in b.heap) :: a.graph[p])
    && b.generation == a.generation && b.counted == a.counted
  }

  /** Steps one after the other, each from what the collection before it left. */
  ghost predicate Chained(steps: seq<Step>, befores: seq<Snapshot>, afters: seq<Snapshot>, header: Tally -> nat, word: nat)
  {
    && |befores| == |steps| + 1 && |afters| == |steps|
    && forall k :: 0 <= k < |steps| ==> Does(steps[k], befores[k], afters[k], header, word) && Collected(afters[k], befores[k+1])
  }

  lemma {:induction false} ChainedOn(steps: seq<Step>, befores: seq<Snapshot>, afters: seq<Snapshot>,
                                     header: Tally -> nat, word: nat, step: Step, after: Snapshot, next: Snapshot)
    requires Chained(steps, befores, afters, header, word)
    requires Does(step, befores[|steps|], after, header, word) && Collected(after, next)
    ensures Chained(steps + [step], befores + [next], afters + [after], header, word)
  {}

  function Walks(steps: seq<Step>): nat
  {
    if steps == [] then 0 else Walks(steps[..|steps|-1]) + (if steps[|steps|-1].Walk? then 1 else 0)
  }

  /** Only walks move the generation on, each of them by one. */
  lemma {:induction false} GenerationsCounted(steps: seq<Step>, befores: seq<Snapshot>, afters: seq<Snapshot>, header: Tally -> nat, word: nat)
    requires Chained(steps, befores, afters, header, word)
    ensures befores[|steps|].generation == befores[0].generation + Walks(steps)
  {
    if steps != [] {
      var n := |steps| - 1;
      assert Does(steps[n], befores[n], afters[n], header, word);
      GenerationsCounted(steps[..n], befores[..n+1], afters[..n], header, word);
    }
  }
}
