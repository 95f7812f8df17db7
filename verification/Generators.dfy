/** Generators: the odometer that runs a test for every combination of generated values. */
module Generators {
  import opened Common

  // ----- the odometer on values -----

  predicate Proper(indices: seq<nat>, sizes: seq<nat>)
  {
    |indices| == |sizes| && forall i :: 0 <= i < |sizes| ==> indices[i] < sizes[i]
  }

  function Zeros(n: nat): (r: seq<nat>)
    ensures |r| == n && forall i :: 0 <= i < n ==> r[i] == 0
  {
    if n == 0 then [] else [0] + Zeros(n - 1)
  }

  /** One index moves on, and the next one too if that completes a round. */
  function Advance(indices: seq<nat>, sizes: seq<nat>): (r: (seq<nat>, bool))
    requires |indices| == |sizes|
    ensures |r.0| == |indices|
  {
    if indices == [] then ([], false)
    else if indices[0] + 1 == sizes[0] then
      var rest := Advance(indices[1..], sizes[1..]);
      ([0] + rest.0, rest.1)
    else ([indices[0] + 1] + indices[1..], true)
  }

  function Product(sizes: seq<nat>): nat
  {
    if sizes == [] then 1 else sizes[0] * Product(sizes[1..])
  }

  /** The number that the indices are the digits of, the first one the least significant. */
  function Number(indices: seq<nat>, sizes: seq<nat>): nat
    requires |indices| == |sizes|
  {
    if indices == [] then 0 else indices[0] + sizes[0] * Number(indices[1..], sizes[1..])
  }

  lemma {:induction false} NumberBound(indices: seq<nat>, sizes: seq<nat>)
    requires Proper(indices, sizes)
    ensures Number(indices, sizes) < Product(sizes)
  {
    if indices != [] {
      NumberBound(indices[1..], sizes[1..]);
      TimesBound(sizes[0], Number(indices[1..], sizes[1..]), Product(sizes[1..]));
    }
  }

  lemma {:induction false} TimesBound(s: nat, n: nat, p: nat)
    requires n < p
    ensures s * n + s <= s * p
  {
    assert s * n + s == s * (n + 1);
    TimesMonotone(s, n + 1, p);
  }

  lemma {:induction false} TimesMonotone(s: nat, a: nat, b: nat)
    requires a <= b
    ensures s * a <= s * b
  {
    assert s * b == s * a + s * (b - a);
  }

  lemma {:induction false} NumberOfZeros(sizes: seq<nat>)
    ensures Number(Zeros(|sizes|), sizes) == 0
  {
    if sizes != [] {
      NumberOfZeros(sizes[1..]);
    }
  }

  /** Advancing adds one, or goes from the largest number back to zero and says so. */
  lemma {:induction false} AdvanceCounts(indices: seq<nat>, sizes: seq<nat>)
    requires Proper(indices, sizes)
    ensures
      var (next, more) := Advance(indices, sizes);
      && Proper(next, sizes)
      && (more <==> Number(indices, sizes) + 1 < Product(sizes))
      && (more ==> Number(next, sizes) == Number(indices, sizes) + 1)
      && (!more ==> next == Zeros(|sizes|))
  {
    if indices != [] {
      var rest, restSizes := indices[1..], sizes[1..];
      AdvanceCounts(rest, restSizes);
      NumberBound(rest, restSizes);
      TimesBound(sizes[0], Number(rest, restSizes), Product(restSizes));
      if indices[0] + 1 == sizes[0] {
        CarryCounts(indices, sizes);
      }
    }
  }

  lemma {:induction false} CarryCounts(indices: seq<nat>, sizes: seq<nat>)
    requires Proper(indices, sizes) && indices != [] && indices[0] + 1 == sizes[0]
    ensures
      var n, p := Number(indices[1..], sizes[1..]), Product(sizes[1..]);
      && Number(indices, sizes) + 1 == sizes[0] * (n + 1)
      && (Number(indices, sizes) + 1 < Product(sizes) <==> n + 1 < p)
  {
    NumberBound(indices[1..], sizes[1..]);
    TimesLess(sizes[0], Number(indices[1..], sizes[1..]) + 1, Product(sizes[1..]));
  }

  lemma {:induction false} TimesLess(s: nat, m: nat, p: nat)
    requires s > 0 && 0 < m <= p
    ensures s * m < s * p <==> m < p
    ensures s * m == s * (m - 1) + s
  {
    if m < p {
      TimesBound(s, m, p);
    }
  }

  /** No two combinations have the same number. */
  lemma {:induction false} NumberInjective(a: seq<nat>, b: seq<nat>, sizes: seq<nat>)
    requires Proper(a, sizes) && Proper(b, sizes) && Number(a, sizes) == Number(b, sizes)
    ensures a == b
  {
    if a != [] {
      var m, n := Number(a[1..], sizes[1..]), Number(b[1..], sizes[1..]);
      SameDigits(sizes[0], a[0], m, b[0], n);
      NumberInjective(a[1..], b[1..], sizes[1..]);
      assert a == [a[0]] + a[1..] && b == [b[0]] + b[1..];
    }
  }

  lemma {:induction false} SameDigits(s: nat, c: nat, m: nat, d: nat, n: nat)
    requires c < s && d < s && c + s * m == d + s * n
    ensures c == d && m == n
  {
    if m < n {
      TimesBound(s, m, n);
    } else if n < m {
      TimesBound(s, n, m);
    }
  }

  // ----- every combination -----

  predicate Positive(sizes: seq<nat>)
  {
    forall i :: 0 <= i < |sizes| ==> sizes[i] > 0
  }

  /** The indices after advancing `k` times from zero. */
  function Nth(sizes: seq<nat>, k: nat): (r: seq<nat>)
    ensures |r| == |sizes|
  {
    if k == 0 then Zeros(|sizes|) else Advance(Nth(sizes, k - 1), sizes).0
  }

  lemma {:induction false} NumberOfNth(sizes: seq<nat>, k: nat)
    requires Positive(sizes) && k < Product(sizes)
    ensures Proper(Nth(sizes, k), sizes) && Number(Nth(sizes, k), sizes) == k
  {
    if k == 0 {
      NumberOfZeros(sizes);
    } else {
      NumberOfNth(sizes, k - 1);
      AdvanceCounts(Nth(sizes, k - 1), sizes);
    }
  }

  function FirstNth(sizes: seq<nat>, n: nat): (r: seq<seq<nat>>)
    ensures |r| == n
  {
    if n == 0 then [] else FirstNth(sizes, n - 1) + [Nth(sizes, n - 1)]
  }

  lemma {:induction false} FirstNthAt(sizes: seq<nat>, n: nat)
    ensures forall k :: 0 <= k < n ==> FirstNth(sizes, n)[k] == Nth(sizes, k)
  {
    if n > 0 {
      FirstNthAt(sizes, n - 1);
    }
  }

  /** Advancing from zero, as often as the product of the sizes, goes through every combination of
      indices, and through none twice. */
  lemma {:induction false} EveryCombinationOnce(sizes: seq<nat>)
    requires Positive(sizes)
    ensures
      var visited := FirstNth(sizes, Product(sizes));
      && |visited| == Product(sizes)
      && (forall k, l :: 0 <= k < l < |visited| ==> visited[k] != visited[l])
      && (forall indices :: indices in visited <==> Proper(indices, sizes))
  {
    var visited := FirstNth(sizes, Product(sizes));
    FirstNthAt(sizes, Product(sizes));
    forall k | 0 <= k < |visited| ensures Proper(visited[k], sizes) && Number(visited[k], sizes) == k {
      NumberOfNth(sizes, k);
    }
    forall indices | Proper(indices, sizes) ensures indices in visited {
      NumberBound(indices, sizes);
      NumberInjective(indices, visited[Number(indices, sizes)], sizes);
    }
  }

  // ----- the generators of a test -----

  class GeneratorInfo {
    const size: nat
    var currentIndex: nat

    constructor (size: nat)
      ensures this.size == size && currentIndex == 0
    {
      this.size, currentIndex := size, 0;
    }

    method MoveNext() returns (more: bool)
      modifies this
      ensures more == (old(currentIndex) + 1 != size)
      ensures currentIndex == if more then old(currentIndex) + 1 else 0
    {
      currentIndex := currentIndex + 1;
      if currentIndex == size {
        currentIndex := 0;
        return false;
      }
      return true;
    }
  }

  ghost predicate Distinct(infos: seq<GeneratorInfo>)
  {
    forall i, j :: 0 <= i < j < |infos| ==> infos[i] != infos[j]
  }

  class GeneratorsForTest {
    var byName: map<string, GeneratorInfo>
    var inOrder: seq<GeneratorInfo>

    constructor ()
      ensures Valid() && inOrder == []
    {
      byName, inOrder := map[], [];
    }

    /** The generators in order are those that have a name, once each. */
    ghost predicate Valid()
      reads this
    {
      && Distinct(inOrder)
      && (forall i :: 0 <= i < |inOrder| ==> inOrder[i] in byName.Values)
      && (forall name :: name in byName ==> byName[name] in inOrder)
    }

    ghost function Sizes(): (r: seq<nat>)
      reads this
      ensures |r| == |inOrder| && forall k :: 0 <= k < |r| ==> r[k] == inOrder[k].size
    {
      seq(|inOrder|, i requires 0 <= i < |inOrder| reads this => inOrder[i].size)
    }

    function Indices(): (r: seq<nat>)
      reads this, inOrder
      ensures |r| == |inOrder| && forall k :: 0 <= k < |r| ==> r[k] == inOrder[k].currentIndex
    {
      seq(|inOrder|, i requires 0 <= i < |inOrder| reads this, inOrder => inOrder[i].currentIndex)
    }

    /** The generator of that name, with the size it was first asked for. */
    method GetGeneratorInfo(name: string, size: nat) returns (info: GeneratorInfo)
      requires Valid()
      modifies this
      ensures Valid() && name in byName && info == byName[name]
      ensures name in old(byName) ==> byName == old(byName) && inOrder == old(inOrder)
      ensures name !in old(byName) ==>
        fresh(info) && byName == old(byName)[name := info] && inOrder == old(inOrder) + [info]
        && info.size == size && info.currentIndex == 0
    {
      if name !in byName {
        info := new GeneratorInfo(size);
        byName := byName[name := info];
        inOrder := inOrder + [info];
        assert forall n :: n in old(byName) ==> byName[n] == old(byName)[n];
        forall i | 0 <= i < |inOrder| ensures inOrder[i] in byName.Values {
          if i < |old(inOrder)| {
            var n :| n in old(byName) && old(byName)[n] == inOrder[i];
            assert byName[n] == inOrder[i];
          } else {
            assert byName[name] == inOrder[i];
          }
        }
      } else {
        info := byName[name];
      }
    }

    method MoveNext() returns (more: bool)
      requires Distinct(inOrder)
      modifies inOrder
      ensures Sizes() == old(Sizes())
      ensures (Indices(), more) == Advance(old(Indices()), Sizes())
    {
      ghost var was, sizes := Indices(), Sizes();
      var it := 0;
      more := false;
      while it < |inOrder| && !more
        invariant 0 <= it <= |inOrder| && (more ==> it < |inOrder|)
        invariant forall i :: 0 <= i < it ==> was[i] + 1 == sizes[i] && inOrder[i].currentIndex == 0
        invariant forall i :: it < i < |inOrder| ==> inOrder[i].currentIndex == was[i]
        invariant it < |inOrder| ==> inOrder[it].currentIndex == if more then was[it] + 1 else was[it]
        invariant more ==> was[it] + 1 != sizes[it]
        decreases |inOrder| - it, !more
      {
        more := inOrder[it].MoveNext();
        if !more {
          it := it + 1;
        }
      }
      AdvanceAt(was, sizes, it);
      ghost var now, next := Indices(), Advance(was, sizes).0;
      assert forall k :: 0 <= k < |now| ==> now[k] == inOrder[k].currentIndex == next[k];
      assert now == next;
    }
  }

  /** What advancing does when the first `k` indices complete their rounds. */
  lemma {:induction false} AdvanceAt(indices: seq<nat>, sizes: seq<nat>, k: nat)
    requires |indices| == |sizes| && k <= |sizes|
    requires forall i :: 0 <= i < k ==> indices[i] + 1 == sizes[i]
    requires k < |sizes| ==> indices[k] + 1 != sizes[k]
    ensures Advance(indices, sizes).1 == (k < |sizes|)
    ensures forall i :: 0 <= i < |sizes| ==>
      Advance(indices, sizes).0[i] == if i < k then 0 else if i == k then indices[i] + 1 else indices[i]
  {
    if k > 0 {
      AdvanceAt(indices[1..], sizes[1..], k - 1);
      var next := Advance(indices, sizes).0;
      forall i | 0 < i < |sizes|
        ensures next[i] == if i < k then 0 else if i == k then indices[i] + 1 else indices[i]
      {
        assert next[i] == Advance(indices[1..], sizes[1..]).0[i - 1];
      }
    }
  }

  lemma {:induction false} NthSteps(sizes: seq<nat>, k: nat)
    requires Positive(sizes) && k < Product(sizes)
    ensures
      var (next, more) := Advance(Nth(sizes, k), sizes);
      && (more ==> k + 1 < Product(sizes) && next == Nth(sizes, k + 1))
      && (!more ==> k + 1 == Product(sizes) && next == Zeros(|sizes|))
    ensures FirstNth(sizes, k + 1) == FirstNth(sizes, k) + [Nth(sizes, k)]
  {
    NumberOfNth(sizes, k);
    AdvanceCounts(Nth(sizes, k), sizes);
  }

  lemma {:induction false} ProductPositive(sizes: seq<nat>)
    requires Positive(sizes)
    ensures Product(sizes) > 0
  {
    NumberOfZeros(sizes);
    NumberBound(Zeros(|sizes|), sizes);
  }

  lemma {:induction false} ZeroSizeGoesOn(indices: seq<nat>, sizes: seq<nat>, j: nat)
    requires |indices| == |sizes| && j < |sizes| && sizes[j] == 0
    ensures Advance(indices, sizes).1
  {
    if j > 0 && indices[0] + 1 == sizes[0] {
      ZeroSizeGoesOn(indices[1..], sizes[1..], j - 1);
    }
  }

  /** Counting from zero comes to an end exactly when every size is positive: the index of a generator
      of size zero runs on past it. */
  lemma {:induction false} CountingEndsExactly(sizes: seq<nat>)
    ensures (exists k: nat :: !Advance(Nth(sizes, k), sizes).1) <==> Positive(sizes)
  {
    if Positive(sizes) {
      ProductPositive(sizes);
      NthSteps(sizes, Product(sizes) - 1);
      assert !Advance(Nth(sizes, Product(sizes) - 1), sizes).1;
    } else {
      var j :| 0 <= j < |sizes| && sizes[j] == 0;
      forall k: nat ensures Advance(Nth(sizes, k), sizes).1 {
        ZeroSizeGoesOn(Nth(sizes, k), sizes, j);
      }
    }
  }

  /** Runs once for every combination: `visited` lists the indices in force in each run. */
  method RunAll(generators: GeneratorsForTest) returns (visited: seq<seq<nat>>)
    requires Distinct(generators.inOrder) && Positive(generators.Sizes())
    requires generators.Indices() == Zeros(|generators.inOrder|)
    modifies generators.inOrder
    ensures generators.Indices() == Zeros(|generators.inOrder|)
    ensures generators.Sizes() == old(generators.Sizes())
    ensures visited == FirstNth(generators.Sizes(), Product(generators.Sizes()))
  {
    ghost var sizes, total := generators.Sizes(), Product(generators.Sizes());
    ProductPositive(sizes);
    visited := [];
    var more := true;
    while more
      invariant generators.Sizes() == sizes
      invariant visited == FirstNth(sizes, |visited|) && |visited| <= total
      invariant more ==> |visited| < total && generators.Indices() == Nth(sizes, |visited|)
      invariant !more ==> |visited| == total && generators.Indices() == Zeros(|sizes|)
      decreases total - |visited|
    {
      NthSteps(sizes, |visited|);
      visited := visited + [generators.Indices()];
      more := generators.MoveNext();
    }
  }

  // ----- composite generators -----

  datatype Generator = Between(first: int, last: int) | Values(values: seq<int>)
  {
    /** An empty range may end one before its start, but not earlier. */
    predicate Valid()
    {
      Between? ==> first <= last + 1
    }

    function Size(): nat
      requires Valid()
    {
      if Between? then 1 + last - first else |values|
    }

    function GetValue(index: nat): int
      requires Valid() && index < Size()
    {
      if Between? then first + index else values[index]
    }

    /** What is generated: every number from the first to the last, or the values in their order. */
    function Elements(): (r: seq<int>)
      requires Valid()
      ensures |r| == Size()
      ensures Values? ==> r == values
      ensures Between? ==> |r| == last + 1 - first && forall k :: 0 <= k < |r| ==> r[k] == first + k
    {
      if Between? then seq(last + 1 - first, k => first + k) else values
    }
  }

  function AllElements(composed: seq<Generator>): seq<int>
    requires forall g :: g in composed ==> g.Valid()
  {
    if composed == [] then [] else composed[0].Elements() + AllElements(composed[1..])
  }

  lemma {:induction false} AllElementsConcat(a: seq<Generator>, b: seq<Generator>)
    requires (forall g :: g in a ==> g.Valid()) && forall g :: g in b ==> g.Valid()
    ensures (forall g :: g in a + b ==> g.Valid()) && AllElements(a + b) == AllElements(a) + AllElements(b)
  {
    if a == [] {
      assert a + b == b;
    } else {
      AllElementsConcat(a[1..], b);
      assert (a + b)[1..] == a[1..] + b;
      Reassociate(a[0].Elements(), AllElements(a[1..]), AllElements(b));
    }
  }

  lemma {:induction false} AllElementsSplit(composed: seq<Generator>, it: nat)
    requires (forall g :: g in composed ==> g.Valid()) && it <= |composed|
    ensures (forall g :: g in composed[..it] ==> g.Valid()) && AllElements(composed[..it]) <= AllElements(composed)
  {
    AllElementsConcat(composed[..it], composed[it..]);
    assert composed == composed[..it] + composed[it..];
  }

  lemma {:induction false} AllElementsAt(composed: seq<Generator>, it: nat)
    requires (forall g :: g in composed ==> g.Valid()) && it < |composed|
    ensures (forall g :: g in composed[..it] ==> g.Valid()) && (forall g :: g in composed[..it+1] ==> g.Valid())
    ensures AllElements(composed[..it+1]) == AllElements(composed[..it]) + composed[it].Elements()
    ensures AllElements(composed[..it+1]) <= AllElements(composed)
  {
    AllElementsConcat(composed[..it], [composed[it]]);
    assert composed[..it+1] == composed[..it] + [composed[it]];
    AllElementsOne(composed[it]);
    AllElementsSplit(composed, it + 1);
  }

  lemma {:induction false} AllElementsOne(g: Generator)
    requires g.Valid()
    ensures AllElements([g]) == g.Elements()
  {
    assert AllElements([g]) == g.Elements() + AllElements([g][1..]);
  }

  class CompositeGenerator {
    var composed: seq<Generator>
    var totalSize: nat

    ghost predicate Proper()
      reads this
    {
      (forall g :: g in composed ==> g.Valid())
    }

    ghost predicate Valid()
      reads this
    {
      Proper() && totalSize == |AllElements(composed)|
    }

    constructor ()
      ensures Valid() && AllElements(composed) == []
    {
      composed, totalSize := [], 0;
    }

    /** The value for an index into all that is generated; there is none past the end. */
    method ValueAt(overallIndex: nat) returns (value: Option<int>)
      requires Proper()
      ensures value ==
        if overallIndex < |AllElements(composed)| then Some(AllElements(composed)[overallIndex]) else None
    {
      var index, it := 0, 0;
      while it < |composed|
        invariant 0 <= it <= |composed| && Proper() && index <= overallIndex
        invariant (forall g :: g in composed[..it] ==> g.Valid()) && index == |AllElements(composed[..it])|
      {
        var generator := composed[it];
        AllElementsAt(composed, it);
        if overallIndex >= index && overallIndex < index + generator.Size() {
          assert AllElements(composed[..it+1])[overallIndex] == generator.Elements()[overallIndex - index];
          return Some(generator.GetValue(overallIndex - index));
        }
        index := index + generator.Size();
        it := it + 1;
      }
      assert composed[..it] == composed;
      return None;
    }

    method Add(generator: Generator)
      requires Valid() && generator.Valid()
      modifies this
      ensures Valid() && AllElements(composed) == old(AllElements(composed)) + generator.Elements()
    {
      totalSize := totalSize + generator.Size();
      AllElementsConcat(composed, [generator]);
      AllElementsOne(generator);
      composed := composed + [generator];
    }

    method ThenValue(value: int)
      requires Valid()
      modifies this
      ensures Valid() && AllElements(composed) == old(AllElements(composed)) + [value]
    {
      Add(Values([value]));
    }

    /** Takes over what another composite generates; that one keeps its total, which is then wrong
        unless it was zero. */
    method Then(other: CompositeGenerator)
      requires Valid() && other.Valid() && other != this
      modifies this, other
      ensures Valid() && AllElements(composed) == old(AllElements(composed)) + old(AllElements(other.composed))
      ensures other.composed == [] && other.totalSize == old(other.totalSize)
      ensures other.Valid() <==> old(other.totalSize) == 0
    {
      AllElementsConcat(composed, other.composed);
      composed := composed + other.composed;
      totalSize := totalSize + other.totalSize;
      other.composed := [];
    }
  }
}
