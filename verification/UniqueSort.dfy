/** `Sizzle.uniqueSort`: sort into document order, then drop duplicates, skipping the second pass
    when the comparator never saw two equal nodes.

    The engine's `Array.prototype.sort` is any comparison sort: a decision tree whose inner nodes
    compare two positions of the input.  The only thing asked of it is what section 15.4.4.11 of
    ECMA-262, 5th edition, asks: with a consistent comparator, a permutation in order. */
module UniqueSort {
  import opened Dom
  import opened SortOrder

  datatype Sort =
    | Done(out: seq<nat>)
    | Test(i: nat, j: nat, less: Sort, same: Sort, more: Sort)

  type Comparator = (nat, nat) -> int

  function Branch(s: Sort, r: int): Sort
    requires s.Test?
  {
    if r < 0 then s.less else if r == 0 then s.same else s.more
  }

  predicate Within(s: Sort, n: nat) {
    match s
    case Done(out) => true
    case Test(i, j, less, same, more) => i < n && j < n && Within(less, n) && Within(same, n) && Within(more, n)
  }

  /** The permutation the sort arrives at. */
  function Run(s: Sort, cmp: Comparator): seq<nat> {
    match s
    case Done(out) => out
    case Test(i, j, less, same, more) =>
      if cmp(i, j) < 0 then Run(less, cmp) else if cmp(i, j) == 0 then Run(same, cmp) else Run(more, cmp)
  }

  /** Some comparison on the way answered "the same". */
  predicate SawEqual(s: Sort, cmp: Comparator) {
    match s
    case Done(out) => false
    case Test(i, j, less, same, more) =>
      cmp(i, j) == 0 || (if cmp(i, j) < 0 then SawEqual(less, cmp) else SawEqual(more, cmp))
  }

  ghost predicate Consistent(cmp: Comparator, n: nat) {
    && (forall i | 0 <= i < n :: cmp(i, i) == 0)
    && (forall i, j | 0 <= i < n && 0 <= j < n :: cmp(i, j) < 0 <==> cmp(j, i) > 0)
    && (forall i, j, k | 0 <= i < n && 0 <= j < n && 0 <= k < n ::
          cmp(i, j) <= 0 && cmp(j, k) <= 0 ==> cmp(i, k) <= 0)
  }

  ghost predicate InOrder(out: seq<nat>, cmp: Comparator, n: nat) {
    && |out| == n
    && (forall k | 0 <= k < n :: out[k] < n)
    && (forall k, l | 0 <= k < l < n :: out[k] != out[l] && cmp(out[k], out[l]) <= 0)
    && (forall i | 0 <= i < n :: i in out)
  }

  /** The sort works for every input of length `n`. */
  ghost predicate Sorts(s: Sort, n: nat) {
    Within(s, n) && forall cmp | Consistent(cmp, n) :: InOrder(Run(s, cmp), cmp, n)
  }

  // ---- such sorts exist ----

  /** Insertion sort with the positions in `sorted` already in order. */
  function Place(n: nat, sorted: seq<nat>): Sort
    decreases n - |sorted|, |sorted| + 1
  {
    if |sorted| >= n then Done(sorted) else Insert(n, sorted, |sorted|)
  }

  /** The next position goes before `p`, or further to the front. */
  function Insert(n: nat, sorted: seq<nat>, p: nat): Sort
    requires p <= |sorted| < n
    decreases n - |sorted|, p
  {
    var rest := Place(n, Inserted(sorted, p));
    if p == 0 then rest else Test(|sorted|, sorted[p - 1], Insert(n, sorted, p - 1), rest, rest)
  }

  function Inserted(sorted: seq<nat>, p: nat): (r: seq<nat>)
    requires p <= |sorted|
    ensures |r| == |sorted| + 1
  {
    sorted[..p] + [|sorted|] + sorted[p..]
  }

  lemma InsertedAll(sorted: seq<nat>, p: nat, i: nat)
    requires p <= |sorted| && (i in sorted || i == |sorted|)
    ensures i in Inserted(sorted, p)
  {
    var r := Inserted(sorted, p);
    if i in sorted {
      var j :| 0 <= j < |sorted| && sorted[j] == i;
      assert r[if j < p then j else j + 1] == i;
    } else {
      assert r[p] == i;
    }
  }

  lemma InsertedInOrder(cmp: Comparator, sorted: seq<nat>, p: nat)
    requires p <= |sorted| && InOrder(sorted, cmp, |sorted|)
    requires forall j | 0 <= j < p :: cmp(sorted[j], |sorted|) <= 0
    requires forall j | p <= j < |sorted| :: cmp(|sorted|, sorted[j]) <= 0
    ensures InOrder(Inserted(sorted, p), cmp, |sorted| + 1)
  {
    var r, k := Inserted(sorted, p), |sorted|;
    forall i | 0 <= i < k + 1 ensures i in r {
      assert i < k ==> i in sorted;
      InsertedAll(sorted, p, i);
    }
    forall i, j | 0 <= i < j < k + 1 ensures r[i] != r[j] && cmp(r[i], r[j]) <= 0 {
      assert r[i] == if i < p then sorted[i] else if i == p then k else sorted[i - 1];
      assert r[j] == if j < p then sorted[j] else if j == p then k else sorted[j - 1];
    }
  }

  /** All that stands before the place found is not after the new position. */
  lemma FrontIsBefore(cmp: Comparator, n: nat, sorted: seq<nat>, p: nat, j: nat)
    requires Consistent(cmp, n) && j < p <= |sorted| < n && InOrder(sorted, cmp, |sorted|)
    requires cmp(|sorted|, sorted[p - 1]) >= 0
    ensures cmp(sorted[j], |sorted|) <= 0
  {
    var a, b, k := sorted[j], sorted[p - 1], |sorted|;
    assert j == p - 1 || cmp(a, b) <= 0;
    assert cmp(k, b) < 0 <==> cmp(b, k) > 0;
  }

  lemma {:induction false} PlaceSorts(cmp: Comparator, n: nat, sorted: seq<nat>)
    requires Consistent(cmp, n) && |sorted| <= n && InOrder(sorted, cmp, |sorted|)
    ensures InOrder(Run(Place(n, sorted), cmp), cmp, n)
    decreases n - |sorted|, |sorted| + 1
  {
    if |sorted| < n {
      InsertSorts(cmp, n, sorted, |sorted|);
    }
  }

  lemma {:induction false} InsertSorts(cmp: Comparator, n: nat, sorted: seq<nat>, p: nat)
    requires Consistent(cmp, n) && p <= |sorted| < n && InOrder(sorted, cmp, |sorted|)
    requires forall j | p <= j < |sorted| :: cmp(|sorted|, sorted[j]) < 0
    ensures InOrder(Run(Insert(n, sorted, p), cmp), cmp, n)
    decreases n - |sorted|, p
  {
    if p > 0 && cmp(|sorted|, sorted[p - 1]) < 0 {
      InsertSorts(cmp, n, sorted, p - 1);
    } else {
      forall j | 0 <= j < p ensures cmp(sorted[j], |sorted|) <= 0 {
        FrontIsBefore(cmp, n, sorted, p, j);
      }
      InsertedInOrder(cmp, sorted, p);
      PlaceSorts(cmp, n, Inserted(sorted, p));
    }
  }

  lemma {:induction false} PlaceWithin(n: nat, sorted: seq<nat>)
    requires |sorted| <= n && forall k | 0 <= k < |sorted| :: sorted[k] < |sorted|
    ensures Within(Place(n, sorted), n)
    decreases n - |sorted|, |sorted| + 1
  {
    if |sorted| < n {
      InsertWithin(n, sorted, |sorted|);
    }
  }

  lemma {:induction false} InsertWithin(n: nat, sorted: seq<nat>, p: nat)
    requires p <= |sorted| < n && forall k | 0 <= k < |sorted| :: sorted[k] < |sorted|
    ensures Within(Insert(n, sorted, p), n)
    decreases n - |sorted|, p
  {
    PlaceWithin(n, Inserted(sorted, p));
    if p > 0 {
      InsertWithin(n, sorted, p - 1);
    }
  }

  /** Insertion sort works for every length. */
  lemma InsertionSorts(n: nat)
    ensures Sorts(Place(n, []), n)
  {
    PlaceWithin(n, []);
    forall cmp | Consistent(cmp, n) ensures InOrder(Run(Place(n, []), cmp), cmp, n) {
      PlaceSorts(cmp, n, []);
    }
  }

  /** Two comparators that agree wherever the first sees a difference drive the sort down the
      same path, as long as the first sees no equality. */
  lemma {:induction false} SamePath(s: Sort, cmp: Comparator, other: Comparator, n: nat)
    requires Within(s, n) && !SawEqual(s, cmp)
    requires forall i, j | 0 <= i < n && 0 <= j < n :: cmp(i, j) != 0 ==> other(i, j) == cmp(i, j)
    ensures Run(s, other) == Run(s, cmp)
  {
    match s
    case Done(out) =>
    case Test(i, j, less, same, more) =>
      if cmp(i, j) < 0 {
        SamePath(less, cmp, other, n);
      } else {
        SamePath(more, cmp, other, n);
      }
  }

  /** `cmp`, with position `p` moved above (or below) everything it was equal to. */
  function Nudged(cmp: Comparator, p: nat, up: bool): Comparator {
    (i: nat, j: nat) =>
      if cmp(i, j) != 0 || i == j then cmp(i, j)
      else if i == p then (if up then 1 else -1)
      else if j == p then (if up then -1 else 1)
      else 0
  }

  lemma NudgedIsConsistent(cmp: Comparator, n: nat, p: nat, up: bool)
    requires Consistent(cmp, n) && p < n
    ensures Consistent(Nudged(cmp, p, up), n)
  {
    var nudged := Nudged(cmp, p, up);
    forall i, j | 0 <= i < n && 0 <= j < n ensures nudged(i, j) < 0 <==> nudged(j, i) > 0 {
      assert cmp(i, j) < 0 <==> cmp(j, i) > 0;
      assert cmp(j, i) < 0 <==> cmp(i, j) > 0;
    }
    forall i, j, k | 0 <= i < n && 0 <= j < n && 0 <= k < n && nudged(i, j) <= 0 && nudged(j, k) <= 0
      ensures nudged(i, k) <= 0
    {
      assert cmp(i, j) <= 0 && cmp(j, k) <= 0 && cmp(i, k) <= 0;
      if cmp(i, k) == 0 && i != k && nudged(i, k) > 0 {
        // then everything between is equal as well, and the nudged position stands on one side
        assert cmp(k, i) <= 0;
        assert cmp(j, i) <= 0 && cmp(k, j) <= 0;
        assert cmp(i, j) == 0 && cmp(j, k) == 0;
      }
    }
  }

  /** The result of a quiet sort is in order for both nudged comparators. */
  lemma QuietSortTwice(s: Sort, cmp: Comparator, n: nat, p: nat)
    requires Sorts(s, n) && Consistent(cmp, n) && !SawEqual(s, cmp) && p < n
    ensures InOrder(Run(s, cmp), Nudged(cmp, p, true), n) && InOrder(Run(s, cmp), Nudged(cmp, p, false), n)
  {
    NudgedIsConsistent(cmp, n, p, true);
    NudgedIsConsistent(cmp, n, p, false);
    SamePath(s, cmp, Nudged(cmp, p, true), n);
    SamePath(s, cmp, Nudged(cmp, p, false), n);
  }

  /** An order that suits `p` after its equals and `p` before them: then it has no equals. */
  lemma OneOrderForBoth(cmp: Comparator, out: seq<nat>, n: nat, p: nat, q: nat)
    requires p < n && q < n && p != q
    requires InOrder(out, Nudged(cmp, p, true), n) && InOrder(out, Nudged(cmp, p, false), n)
    ensures cmp(p, q) != 0 || cmp(q, p) != 0
  {
    assert p in out && q in out;
    var k :| 0 <= k < n && out[k] == p;
    var l :| 0 <= l < n && out[l] == q;
    if k < l {
      assert Nudged(cmp, p, true)(out[k], out[l]) <= 0;
    } else {
      assert Nudged(cmp, p, false)(out[l], out[k]) <= 0;
    }
  }

  /** No comparison answered "the same", so no two positions hold the same thing: otherwise the
      sort could not tell the input from two others that must be permuted differently. */
  lemma QuietSortMeansDistinct(s: Sort, cmp: Comparator, n: nat, p: nat, q: nat)
    requires Sorts(s, n) && Consistent(cmp, n) && !SawEqual(s, cmp)
    requires p < n && q < n && p != q
    ensures cmp(p, q) != 0
  {
    QuietSortTwice(s, cmp, n, p);
    OneOrderForBoth(cmp, Run(s, cmp), n, p, q);
  }

  /** The comparator of the source over positions of a list of nodes. */
  function ByOrder(nodes: seq<Path>): Comparator {
    (i: nat, j: nat) =>
      if i < |nodes| && j < |nodes| && nodes[i] != [] && nodes[j] != [] then Order(nodes[i], nodes[j]) else 0
  }

  ghost predicate AllNodes(f: Forest, nodes: seq<Path>) {
    forall i | 0 <= i < |nodes| :: IsNode(f, nodes[i])
  }

  /** Nodes of one tree; or of two, of one of which only the root is there, and of the other not. */
  ghost predicate Sortable(f: Forest, nodes: seq<Path>) {
    AllNodes(f, nodes) && forall i, j | 0 <= i < |nodes| && 0 <= j < |nodes| :: Comparable(nodes[i], nodes[j])
  }

  ghost predicate OneTree(nodes: seq<Path>) {
    forall i, j | 0 <= i < |nodes| && 0 <= j < |nodes| :: nodes[i] != [] && nodes[j] != [] && nodes[i][0] == nodes[j][0]
  }

  /** Exactly these lists can be sorted with the comparator: on any other it contradicts itself. */
  lemma SortableExactly(f: Forest, nodes: seq<Path>)
    requires AllNodes(f, nodes)
    ensures Consistent(ByOrder(nodes), |nodes|) <==> Sortable(f, nodes)
  {
    var cmp := ByOrder(nodes);
    if Consistent(cmp, |nodes|) {
      forall i, j | 0 <= i < |nodes| && 0 <= j < |nodes| ensures Comparable(nodes[i], nodes[j]) {
        assert cmp(i, j) < 0 <==> cmp(j, i) > 0;
        assert cmp(j, i) < 0 <==> cmp(i, j) > 0;
      }
    }
    if Sortable(f, nodes) {
      forall i, j | 0 <= i < |nodes| && 0 <= j < |nodes| ensures cmp(i, j) < 0 <==> cmp(j, i) > 0 {
        ComparableIsOrdered(nodes[i], nodes[j], nodes[i]);
      }
      forall i, j, k | 0 <= i < |nodes| && 0 <= j < |nodes| && 0 <= k < |nodes|
        && cmp(i, j) <= 0 && cmp(j, k) <= 0
        ensures cmp(i, k) <= 0
      {
        ComparableIsOrdered(nodes[i], nodes[j], nodes[k]);
      }
    }
  }

  ghost predicate Ascending(nodes: seq<Path>) {
    && (forall i | 0 <= i < |nodes| :: nodes[i] != [])
    && forall i, j | 0 <= i < j < |nodes| :: nodes[i] == nodes[j] || Order(nodes[i], nodes[j]) < 0
  }

  ghost predicate SameNodes(a: seq<Path>, b: seq<Path>) {
    forall x :: x in a <==> x in b
  }

  class Sizzle {
    var hasDuplicate: bool
    var results: seq<Path>
    /** False when the engine was seen to call the comparator for equal elements. */
    const baseHasDuplicate: bool

    constructor (base: bool)
      ensures baseHasDuplicate == base && results == []
    {
      baseHasDuplicate := base;
      hasDuplicate := false;
      results := [];
    }

    /** Runs the engine's sort with the source's comparator. */
    method SortResults(f: Forest, engine: Sort)
      requires Sortable(f, results) && Sorts(engine, |results|)
      modifies this
      ensures |results| == |old(results)| && Sortable(f, results)
      ensures Ascending(results) && SameNodes(results, old(results))
      ensures !hasDuplicate ==> forall i, j | 0 <= i < j < |results| :: results[i] != results[j]
      ensures old(hasDuplicate) ==> hasDuplicate
    {
      ghost var cmp := ByOrder(results);
      SortableExactly(f, results);
      var out := RunEngine(f, engine);
      assert InOrder(out, cmp, |results|);
      if !hasDuplicate {
        forall p, q | 0 <= p < |results| && 0 <= q < |results| && p != q ensures cmp(p, q) != 0 {
          QuietSortMeansDistinct(engine, cmp, |results|, p, q);
        }
      }
      var nodes := results;
      results := seq(|out|, k requires 0 <= k < |out| && out[k] < |nodes| => nodes[out[k]]);
      Rearranged(f, nodes, out, results, cmp);
    }

    /** The engine compares where its decision tree says. */
    method RunEngine(f: Forest, engine: Sort) returns (out: seq<nat>)
      requires AllNodes(f, results) && Within(engine, |results|)
      modifies this`hasDuplicate
      ensures out == Run(engine, ByOrder(results))
      ensures SawEqual(engine, ByOrder(results)) || old(hasDuplicate) ==> hasDuplicate
    {
      ghost var cmp := ByOrder(results);
      var s := engine;
      while s.Test?
        invariant Within(s, |results|) && Run(s, cmp) == Run(engine, cmp)
        invariant SawEqual(engine, cmp) ==> hasDuplicate || SawEqual(s, cmp)
        invariant old(hasDuplicate) ==> hasDuplicate
        decreases s
      {
        var r, saw := Compare(f, results[s.i], results[s.j]);
        if saw {
          hasDuplicate := true;
        }
        s := Branch(s, r);
      }
      out := s.out;
    }

    /** Document order, no node twice, and no node lost or added. */
    method UniqueSort(f: Forest, engine: Sort)
      requires Sortable(f, results) && Sorts(engine, |results|)
      modifies this
      ensures Sortable(f, results) && SameNodes(results, old(results))
      ensures forall i, j | 0 <= i < j < |results| :: Order(results[i], results[j]) < 0
      ensures OneTree(old(results)) ==> forall i, j | 0 <= i < j < |results| :: Precedes(f, results[i], results[j])
    {
      hasDuplicate := baseHasDuplicate;
      SortResults(f, engine);
      if hasDuplicate {
        DropDuplicates(f);
      }
      if OneTree(old(results)) {
        forall i, j | 0 <= i < j < |results| ensures Precedes(f, results[i], results[j]) {
          assert results[i] in old(results) && results[j] in old(results);
          OrderIsDocumentOrder(f, results[i], results[j]);
        }
      }
    }

    /** The pass that splices out neighbours that are the same. */
    method DropDuplicates(f: Forest)
      requires Sortable(f, results) && Ascending(results)
      modifies this`results
      ensures Sortable(f, results) && SameNodes(results, old(results))
      ensures forall i, j | 0 <= i < j < |results| :: Order(results[i], results[j]) < 0
    {
      var i := 1;
      while i < |results|
        invariant 1 <= i && (i <= |results| || results == [])
        invariant Sortable(f, results) && Ascending(results) && SameNodes(results, old(results))
        invariant forall k | 1 <= k < i && k < |results| :: results[k] != results[k - 1]
        decreases |results| - i
      {
        if results[i] == results[i - 1] {
          ghost var before := results;
          results := results[..i] + results[i + 1..];
          Spliced(before, results, i);
          i := i - 1;
        }
        i := i + 1;
      }
      NeighboursDiffer(f, results);
    }
  }

  lemma Rearranged(f: Forest, nodes: seq<Path>, out: seq<nat>, sorted: seq<Path>, cmp: Comparator)
    requires Sortable(f, nodes) && cmp == ByOrder(nodes) && InOrder(out, cmp, |nodes|)
    requires |sorted| == |out| && forall k | 0 <= k < |out| :: sorted[k] == nodes[out[k]]
    ensures Sortable(f, sorted) && Ascending(sorted) && SameNodes(sorted, nodes)
    ensures (forall p, q | 0 <= p < |nodes| && 0 <= q < |nodes| && p != q :: cmp(p, q) != 0)
      ==> forall i, j | 0 <= i < j < |sorted| :: sorted[i] != sorted[j]
  {
    forall i, j | 0 <= i < j < |sorted| ensures sorted[i] == sorted[j] || Order(sorted[i], sorted[j]) < 0 {
      assert cmp(out[i], out[j]) <= 0;
    }
    forall i, j | 0 <= i < j < |sorted| && sorted[i] == sorted[j] ensures cmp(out[i], out[j]) == 0 {
    }
    forall x | x in nodes ensures x in sorted {
      var i :| 0 <= i < |nodes| && nodes[i] == x;
      assert i in out;
      var k :| 0 <= k < |out| && out[k] == i;
      assert sorted[k] == x;
    }
  }

  /** Dropping the second of two equal neighbours loses no node. */
  lemma Spliced(before: seq<Path>, after: seq<Path>, i: nat)
    requires 0 < i < |before| && before[i] == before[i - 1] && after == before[..i] + before[i + 1..]
    ensures SameNodes(after, before)
    ensures Ascending(before) ==> Ascending(after)
  {
    forall x | x in before ensures x in after {
      var k :| 0 <= k < |before| && before[k] == x;
      assert after[if k < i then k else if k == i then i - 1 else k - 1] == x;
    }
  }

  lemma NeighboursDiffer(f: Forest, nodes: seq<Path>)
    requires Sortable(f, nodes) && Ascending(nodes) && forall k | 1 <= k < |nodes| :: nodes[k] != nodes[k - 1]
    ensures forall i, j | 0 <= i < j < |nodes| :: Order(nodes[i], nodes[j]) < 0
  {
    forall i, j | 0 <= i < j < |nodes| ensures Order(nodes[i], nodes[j]) < 0 {
      assert nodes[i + 1] != nodes[i];
      if i + 1 < j && nodes[i + 1] != nodes[j] {
        ComparableIsOrdered(nodes[i], nodes[i + 1], nodes[j]);
      }
    }
  }
}
