/** The objects of the GC stress test, the places that hold references to them, and what is
    reachable from those places. */
module GCHeap {

  datatype AllocationType = TraceAndFinalized | TraceOnly | FinalizeLeaf | PlainLeaf

  datatype Kind = Leaf | Scanned | Barrier | Tracked | Finalized | RecyclerVisited(alloc: AllocationType)
  {
    /** Tracked and visited objects keep their references tagged. */
    predicate TagsReferences() { Tracked? || RecyclerVisited? }

    /** Kinds that never hand out a location inside them. */
    predicate HidesReferences()
    {
      Leaf? || (RecyclerVisited? && (alloc.PlainLeaf? || alloc.FinalizeLeaf?))
    }
  }

  /** The content of a place: null, or an object, with or without the tag bit. */
  datatype Ref = Null | Ref(target: TestObject, tagged: bool)

  function Tag(o: TestObject?): Ref
  {
    if o == null then Null else Ref(o, true)
  }

  function Plain(o: TestObject?): Ref
  {
    if o == null then Null else Ref(o, false)
  }

  /** The object behind a reference, the tag bit aside. */
  function Target(r: Ref): TestObject?
  {
    if r.Null? then null else r.target
  }

  class TestObject {
    const kind: Kind
    const count: nat
    var references: seq<Ref>
    var generation: nat

    constructor (kind: Kind, count: nat, currentGeneration: nat)
      ensures this.kind == kind && this.count == count && generation == currentGeneration
      ensures references == seq(if kind.Leaf? then 0 else count, _ => Null)
    {
      this.kind, this.count, generation := kind, count, currentGeneration;
      references := seq(if kind.Leaf? then 0 else count, _ => Null);
    }

    /** As many slots as the kind has, each tagged or not as the kind wants it, and all of them null
        where the kind never hands them out. */
    ghost predicate WellFormed()
      reads this`references
    {
      && |references| == (if kind.Leaf? then 0 else count)
      && forall i :: 0 <= i < |references| ==> references[i].Ref? ==>
        && references[i].tagged == (kind.Tracked? || kind.RecyclerVisited?)
        && !kind.Leaf? && kind != RecyclerVisited(PlainLeaf) && kind != RecyclerVisited(FinalizeLeaf)
    }

    ghost predicate RefersOnlyTo(s: set<TestObject>)
      reads this`references
    {
      forall i :: 0 <= i < |references| ==> references[i].Ref? ==> references[i].target in s
    }
  }

  ghost function Targets(refs: seq<Ref>): set<TestObject>
  {
    set i | 0 <= i < |refs| && refs[i].Ref? :: refs[i].target
  }

  // ----- reachability -----

  /** The objects at most `n` references away from `roots`, going through objects of `heap`. */
  ghost function Within(roots: set<TestObject>, heap: set<TestObject>, n: nat): set<TestObject>
    reads heap`references
  {
    if n == 0 then roots
    else
      var near := Within(roots, heap, n - 1);
      near + ReferredFrom(near, heap)
  }

  ghost function ReferredFrom(near: set<TestObject>, heap: set<TestObject>): set<TestObject>
    reads heap`references
  {
    set o, i | o in near && o in heap && 0 <= i < |o.references| && o.references[i].Ref? :: o.references[i].target
  }

  ghost predicate Reachable(roots: set<TestObject>, heap: set<TestObject>, o: TestObject)
    reads heap`references
  {
    exists n: nat :: o in Within(roots, heap, n)
  }

  ghost predicate ClosedUnderReferences(s: set<TestObject>)
    reads s`references
  {
    forall o :: o in s ==> o.RefersOnlyTo(s)
  }

  /** What is reachable lies in every closed set that has the roots. */
  lemma {:induction false} WithinClosed(roots: set<TestObject>, heap: set<TestObject>, s: set<TestObject>, n: nat)
    requires roots <= s && ClosedUnderReferences(s)
    ensures Within(roots, heap, n) <= s
  {
    if n > 0 {
      WithinClosed(roots, heap, s, n - 1);
      var near := Within(roots, heap, n - 1);
      forall o, i | o in near && o in heap && 0 <= i < |o.references| && o.references[i].Ref?
        ensures o.references[i].target in s
      {
        assert o.RefersOnlyTo(s);
      }
    }
  }

  lemma {:induction false} ReachableClosed(roots: set<TestObject>, heap: set<TestObject>, s: set<TestObject>, o: TestObject)
    requires roots <= s && ClosedUnderReferences(s) && Reachable(roots, heap, o)
    ensures o in s
  {
    var n: nat :| o in Within(roots, heap, n);
    WithinClosed(roots, heap, s, n);
  }

  lemma {:induction false} RootsReachable(roots: set<TestObject>, heap: set<TestObject>)
    ensures forall o :: o in roots ==> Reachable(roots, heap, o)
  {
    forall o | o in roots ensures Reachable(roots, heap, o) {
      assert o in Within(roots, heap, 0);
    }
  }

  lemma {:induction false} ReachableStep(roots: set<TestObject>, heap: set<TestObject>, o: TestObject, i: nat)
    requires o in heap && Reachable(roots, heap, o)
    requires i < |o.references| && o.references[i].Ref?
    ensures Reachable(roots, heap, o.references[i].target)
  {
    var n: nat :| o in Within(roots, heap, n);
    assert o.references[i].target in Within(roots, heap, n + 1);
  }

  /** Leaving out of the heap what is not reachable changes nothing about what is. */
  lemma {:induction false} WithinSmallerHeap(roots: set<TestObject>, heap: set<TestObject>, left: set<TestObject>, n: nat)
    requires forall o :: o in heap && Reachable(roots, heap, o) ==> o in left
    requires left <= heap
    ensures Within(roots, heap, n) == Within(roots, left, n)
  {
    if n > 0 {
      WithinSmallerHeap(roots, heap, left, n - 1);
      var near := Within(roots, heap, n - 1);
      forall o | o in near && o in heap ensures o in left {
        assert Reachable(roots, heap, o);
      }
      ReferredFromSame(near, heap, left);
    }
  }

  lemma {:induction false} ReferredFromSame(near: set<TestObject>, heap: set<TestObject>, left: set<TestObject>)
    requires left <= heap && forall o :: o in near && o in heap ==> o in left
    ensures ReferredFrom(near, heap) == ReferredFrom(near, left)
  {}

  lemma {:induction false} ReachableInSmallerHeap(roots: set<TestObject>, heap: set<TestObject>, left: set<TestObject>, o: TestObject)
    requires forall x :: x in heap && Reachable(roots, heap, x) ==> x in left
    requires left <= heap
    ensures Reachable(roots, heap, o) <==> Reachable(roots, left, o)
  {
    forall n: nat ensures Within(roots, heap, n) == Within(roots, left, n) {
      WithinSmallerHeap(roots, heap, left, n);
    }
  }

  // ----- what a collector traces -----

  /** The objects at most `n` references away from `roots`, going only through objects of kinds whose
      references a collector looks at. */
  ghost function WithinTraced(roots: set<TestObject>, heap: set<TestObject>, n: nat): set<TestObject>
    reads heap`references
  {
    if n == 0 then roots
    else
      var near := WithinTraced(roots, heap, n - 1);
      near + TracedFrom(near, heap)
  }

  ghost function TracedFrom(near: set<TestObject>, heap: set<TestObject>): set<TestObject>
    reads heap`references
  {
    set o, i | o in near && o in heap && !o.kind.HidesReferences() && 0 <= i < |o.references| && o.references[i].Ref?
      :: o.references[i].target
  }

  ghost predicate Traced(roots: set<TestObject>, heap: set<TestObject>, o: TestObject)
    reads heap`references
  {
    exists n: nat :: o in WithinTraced(roots, heap, n)
  }

  /** Where objects that hide their references have none, tracing loses nothing. */
  lemma {:induction false} WithinTracedExactly(roots: set<TestObject>, heap: set<TestObject>, s: set<TestObject>, n: nat)
    requires roots <= s && ClosedUnderReferences(s) && forall x :: x in s ==> x.WellFormed()
    ensures WithinTraced(roots, heap, n) == Within(roots, heap, n)
  {
    if n > 0 {
      WithinTracedExactly(roots, heap, s, n - 1);
      WithinClosed(roots, heap, s, n - 1);
      TracedFromAll(Within(roots, heap, n - 1), heap);
    }
  }

  lemma {:induction false} TracedFromAll(near: set<TestObject>, heap: set<TestObject>)
    requires forall o :: o in near ==> o.WellFormed()
    ensures TracedFrom(near, heap) == ReferredFrom(near, heap)
  {
    forall x | x in ReferredFrom(near, heap) ensures x in TracedFrom(near, heap) {
      var o, i :| o in near && o in heap && 0 <= i < |o.references| && o.references[i].Ref? && x == o.references[i].target;
      assert o.WellFormed();
    }
  }

  lemma {:induction false} TracedExactly(roots: set<TestObject>, heap: set<TestObject>, s: set<TestObject>, o: TestObject)
    requires roots <= s && ClosedUnderReferences(s) && forall x :: x in s ==> x.WellFormed()
    ensures Traced(roots, heap, o) <==> Reachable(roots, heap, o)
  {
    forall n: nat ensures WithinTraced(roots, heap, n) == Within(roots, heap, n) {
      WithinTracedExactly(roots, heap, s, n);
    }
  }

  // ----- sizes -----

  datatype Tally = LeafBytes | ScannedBytes | BarrierBytes | TrackedBytes | FinalizedBytes | RecyclerVisitedBytes

  function TallyOf(kind: Kind): Tally
  {
    match kind
    case Leaf => LeafBytes
    case Scanned => ScannedBytes
    case Barrier => BarrierBytes
    case Tracked => TrackedBytes
    case Finalized => FinalizedBytes
    case RecyclerVisited(_) => RecyclerVisitedBytes
  }

  /** The size of the class and of the words that follow it. */
  function Size(o: TestObject, header: Tally -> nat, word: nat): nat
  {
    header(TallyOf(o.kind)) + o.count * word
  }

  /** The total size of the objects of `s` that are counted under `t`. */
  ghost function Total(s: set<TestObject>, t: Tally, header: Tally -> nat, word: nat): nat
  {
    if s == {} then 0
    else
      var o :| o in s;
      (if TallyOf(o.kind) == t then Size(o, header, word) else 0) + Total(s - {o}, t, header, word)
  }

  /** The kinds whose bytes a counter holds. */
  predicate CountsKind(t: Tally, kind: Kind)
  {
    match t
    case LeafBytes => kind.Leaf?
    case ScannedBytes => kind.Scanned?
    case BarrierBytes => kind.Barrier?
    case TrackedBytes => kind.Tracked?
    case FinalizedBytes => kind.Finalized?
    case RecyclerVisitedBytes => kind.RecyclerVisited?
  }

  lemma {:induction false} TotalExactly(s: set<TestObject>, o: TestObject, t: Tally, header: Tally -> nat, word: nat)
    requires o !in s
    ensures Total({}, t, header, word) == 0
    ensures Total(s + {o}, t, header, word) ==
      Total(s, t, header, word) + (if CountsKind(t, o.kind) then header(t) + o.count * word else 0)
  {
    TotalWithOneMore(s, o, t, header, word);
  }

  lemma {:induction false} TotalWithOneMore(s: set<TestObject>, o: TestObject, t: Tally, header: Tally -> nat, word: nat)
    requires o !in s
    ensures Total(s + {o}, t, header, word) ==
      Total(s, t, header, word) + (if TallyOf(o.kind) == t then Size(o, header, word) else 0)
    decreases s
  {
    var more := s + {o};
    var first :| first in more && Total(more, t, header, word) ==
      (if TallyOf(first.kind) == t then Size(first, header, word) else 0) + Total(more - {first}, t, header, word);
    if first == o {
      assert more - {first} == s;
    } else {
      TotalWithOneMore(s - {first}, o, t, header, word);
      assert more - {first} == (s - {first}) + {o};
      TotalWithOneMore(s - {first}, first, t, header, word);
      assert s == (s - {first}) + {first};
    }
  }
}
