/** The CHILD filter of Sizzle: `:first-child`, `:last-child`, `:only-child` and `:nth-child`, the
    last with a count of the children that is kept in the nodes for the rest of the pass. */
module NthChild {
  import opened Wrappers
  import opened Dom

  datatype Kind = IsFirst | IsLast | IsOnly | Nth(a: int, b: int)

  // ---- the arithmetic ----

  /** The `%` of JavaScript: the quotient is rounded towards zero. */
  function Remainder(x: int, y: int): int
    requires y != 0
  {
    if x < 0 then -((-x) % Magnitude(y)) else x % Magnitude(y)
  }

  function Magnitude(y: int): (m: nat)
    ensures y != 0 ==> m > 0
  {
    if y < 0 then -y else y
  }

  /** Section 6.6.5.2 of Selectors Level 3, for an element at `position` among its siblings. */
  ghost predicate Represents(a: int, b: int, position: int) {
    exists n: nat :: position == a * n + b
  }

  predicate FormulaHolds(a: int, b: int, position: int) {
    var diff := position - b;
    if a == 0 then diff == 0 else Remainder(diff, a) == 0 && diff as real / a as real >= 0.0
  }

  lemma RemainderZero(x: int, y: int) returns (q: int)
    requires y != 0 && Remainder(x, y) == 0
    ensures x == y * q
  {
    var m := Magnitude(y);
    q := if x < 0 then -((-x) / m) else x / m;
    if y < 0 {
      q := -q;
    }
  }

  lemma MultipleHasNoRemainder(y: int, q: int)
    requires y != 0
    ensures Remainder(y * q, y) == 0
  {
    var m := Magnitude(y);
    if y < 0 {
      assert y * q == m * -q;
      if q > 0 {
        assert -(y * q) == m * q;
        NoRemainder(m, q);
      } else {
        NoRemainder(m, -q);
      }
    } else if q < 0 {
      assert -(y * q) == m * -q;
      NoRemainder(m, -q);
    } else {
      NoRemainder(m, q);
    }
  }

  lemma MultipleIsLarge(m: nat, e: int)
    requires m > 0 && e != 0
    ensures m * e >= m || m * e + m <= 0
  {
    if e > 0 {
      assert m * (e - 1) >= 0;
    } else {
      assert m * (-e - 1) >= 0;
    }
  }

  lemma NoRemainder(m: nat, k: nat)
    requires m > 0
    ensures (m * k) % m == 0
  {
    var d, r := (m * k) / m, (m * k) % m;
    assert m * (k - d) == r;
    if k != d {
      MultipleIsLarge(m, k - d);
    }
  }

  lemma QuotientSign(a: int, q: int)
    requires a != 0
    ensures (a * q) as real / a as real == q as real
  {
    assert (a * q) as real == a as real * q as real;
  }

  /** The test by remainder and quotient is the existence of an n, whatever the signs. */
  lemma FormulaIsRepresents(a: int, b: int, position: int)
    ensures FormulaHolds(a, b, position) <==> Represents(a, b, position)
  {
    var diff := position - b;
    if a == 0 {
      if diff == 0 {
        assert position == a * 0 + b;
      }
    } else {
      if FormulaHolds(a, b, position) {
        var q := RemainderZero(diff, a);
        QuotientSign(a, q);
        assert position == a * q + b;
      }
      if Represents(a, b, position) {
        var n: nat :| position == a * n + b;
        MultipleHasNoRemainder(a, n);
        QuotientSign(a, n);
        assert diff == a * n;
      }
    }
  }

  // ---- the position ----

  /** How many of the first `i` children are elements. */
  function Elements(f: Forest, parent: Path, i: nat): (count: nat)
    requires IsNode(f, parent) && i <= |NodeAt(f, parent).kids|
    ensures count <= i
  {
    if i == 0 then 0
    else
      ChildIsNode(f, parent, i - 1);
      Elements(f, parent, i - 1) + if IsElement(f, parent + [i - 1]) then 1 else 0
  }

  /** The place of an element among the element children of its parent, from 1. */
  function Position(f: Forest, n: Path): nat
    requires IsNode(f, n) && |n| > 1
  {
    FamilyIsNode(f, n, 0);
    Elements(f, Init(n), Last(n) + 1)
  }

  /** `parent.sizcache` and `elem.nodeIndex`. */
  datatype Marks = Marks(sizcache: map<Path, nat>, nodeIndex: map<Path, nat>)

  predicate Indexed(f: Forest, m: Marks) {
    forall n | n in m.nodeIndex :: m.nodeIndex[n] > 0 && |n| > 1 && IsNode(f, n) && IsElement(f, n)
  }

  /** Under a parent of this pass, an index that is there is the position. */
  ghost predicate CacheRight(f: Forest, doneName: nat, m: Marks) {
    && Indexed(f, m)
    && (forall n | n in m.nodeIndex ::
          Init(n) in m.sizcache && m.sizcache[Init(n)] == doneName ==> m.nodeIndex[n] == Position(f, n))
  }

  /** `match[0] = done++`: a pass begins with no mark of its own. */
  lemma PassBegins(f: Forest, doneName: nat, m: Marks)
    requires Indexed(f, m) && forall n | n in m.sizcache :: m.sizcache[n] != doneName
    ensures CacheRight(f, doneName, m)
  {
  }

  /** A mark of another pass, as `dirCheck` writes it, does no harm. */
  lemma OtherPassKeeps(f: Forest, doneName: nat, m: Marks, n: Path, other: nat)
    requires CacheRight(f, doneName, m) && other != doneName
    ensures CacheRight(f, doneName, m.(sizcache := m.sizcache[n := other]))
  {
  }

  /** What the filter answers. */
  ghost predicate Answers(f: Forest, n: Path, kind: Kind)
    requires IsNode(f, n)
  {
    match kind
    case IsFirst => NoneBefore(f, n)
    case IsLast => NoneAfter(f, n)
    case IsOnly => NoneBefore(f, n) && NoneAfter(f, n)
    case Nth(a, b) => (a == 1 && b == 0) || Meant(f, n, a, b)
  }

  ghost predicate Meant(f: Forest, n: Path, a: int, b: int)
    requires IsNode(f, n)
  {
    |n| > 1 && IsElement(f, n) && Represents(a, b, Position(f, n))
  }

  ghost predicate NoneBefore(f: Forest, n: Path)
    requires IsNode(f, n)
  {
    forall i :: 0 <= i < Last(n) && |n| > 1 ==> IsNode(f, Init(n) + [i]) && !IsElement(f, Init(n) + [i])
  }

  ghost predicate NoneAfter(f: Forest, n: Path)
    requires IsNode(f, n)
  {
    forall i :: i > Last(n) && |n| > 1 && IsNode(f, Init(n) + [i]) ==> !IsElement(f, Init(n) + [i])
  }

  lemma {:induction false} ElementsGrow(f: Forest, parent: Path, i: nat, j: nat)
    requires IsNode(f, parent) && i <= j <= |NodeAt(f, parent).kids|
    ensures Elements(f, parent, i) <= Elements(f, parent, j)
    ensures Elements(f, parent, i) == Elements(f, parent, j)
            <==> forall k :: i <= k < j ==> IsNode(f, parent + [k]) && !IsElement(f, parent + [k])
    decreases j
  {
    if i < j {
      ChildIsNode(f, parent, j - 1);
      ElementsGrow(f, parent, i, j - 1);
    }
  }

  /** The element siblings of `n` in front of it, and `n` itself. */
  ghost function UpTo(f: Forest, parent: Path, i: nat): set<nat>
    requires IsNode(f, parent) && i <= |NodeAt(f, parent).kids|
  {
    set k: nat | k < i && IsNode(f, parent + [k]) && IsElement(f, parent + [k])
  }

  lemma {:induction false} ElementsIsCount(f: Forest, parent: Path, i: nat)
    requires IsNode(f, parent) && i <= |NodeAt(f, parent).kids|
    ensures Elements(f, parent, i) == |UpTo(f, parent, i)|
  {
    if i > 0 {
      ChildIsNode(f, parent, i - 1);
      ElementsIsCount(f, parent, i - 1);
      var fewer := UpTo(f, parent, i - 1);
      assert UpTo(f, parent, i) == if IsElement(f, parent + [i - 1]) then fewer + {i - 1} else fewer;
    }
  }

  /** The position of an element is the number of elements among its siblings up to itself. */
  lemma PositionIsCount(f: Forest, n: Path)
    requires IsNode(f, n) && |n| > 1
    ensures IsNode(f, Init(n)) && Last(n) < |NodeAt(f, Init(n)).kids|
    ensures Position(f, n) == |UpTo(f, Init(n), Last(n) + 1)|
  {
    FamilyIsNode(f, n, 0);
    ElementsIsCount(f, Init(n), Last(n) + 1);
  }

  /** The kinds by position: first, last and only among the element children of the parent. */
  lemma KindsByPosition(f: Forest, n: Path)
    requires IsNode(f, n) && |n| > 1 && IsElement(f, n)
    ensures IsNode(f, Init(n))
    ensures var total := |UpTo(f, Init(n), |NodeAt(f, Init(n)).kids|)|;
            && (Answers(f, n, IsFirst) <==> Position(f, n) == 1)
            && (Answers(f, n, IsLast) <==> Position(f, n) == total)
            && (Answers(f, n, IsOnly) <==> total == 1)
  {
    FamilyIsNode(f, n, 0);
    var parent, at, width := Init(n), Last(n), |NodeAt(f, Init(n)).kids|;
    assert parent + [at] == n;
    ElementsGrow(f, parent, 0, at);
    ElementsGrow(f, parent, at + 1, width);
    ElementsIsCount(f, parent, width);
    forall i | at < i < width ensures IsNode(f, parent + [i]) {
      ChildIsNode(f, parent, i);
    }
    forall i: nat | IsNode(f, parent + [i]) ensures i < width {
      ChildIsNode(f, parent, i);
    }
  }

  /** `:first-child` is `:nth-child(1)` (section 6.6.5.6 of Selectors Level 3). */
  lemma FirstIsFirst(f: Forest, n: Path)
    requires IsNode(f, n) && |n| > 1 && IsElement(f, n)
    ensures Answers(f, n, IsFirst) <==> Answers(f, n, Nth(0, 1))
  {
    FamilyIsNode(f, n, 0);
    assert Init(n) + [Last(n)] == n;
    ElementsGrow(f, Init(n), 0, Last(n));
    if Answers(f, n, IsFirst) {
      assert Position(f, n) == 0 * 0 + 1;
    }
  }

  /** The filter means what the section says, except for `n` itself on a node without a parent or
      one that is no element. */
  lemma AnswersAsMeant(f: Forest, n: Path, a: int, b: int)
    requires IsNode(f, n)
    ensures (Answers(f, n, Nth(a, b)) <==> Meant(f, n, a, b)) <==> !(a == 1 && b == 0) || (|n| > 1 && IsElement(f, n))
  {
    if |n| > 1 {
      assert Position(f, n) == 1 * Position(f, n) + 0;
    }
  }

  /** The first `k` children of `parent` have their numbers, and no index elsewhere changed. */
  ghost predicate Numbered(f: Forest, parent: Path, before: map<Path, nat>, after: map<Path, nat>, k: nat)
    requires IsNode(f, parent) && k <= |NodeAt(f, parent).kids|
  {
    forall n: Path :: Entry(f, parent, before, after, k, n)
  }

  ghost predicate Entry(f: Forest, parent: Path, before: map<Path, nat>, after: map<Path, nat>, k: nat, n: Path)
    requires IsNode(f, parent) && k <= |NodeAt(f, parent).kids|
  {
    if n != [] && Init(n) == parent && Last(n) < k then
      (n in after <==> IsNode(f, n) && IsElement(f, n)) && (n in after ==> after[n] == Elements(f, parent, Last(n) + 1))
    else
      (n in after <==> n in before) && (n in after ==> after[n] == before[n])
  }

  function Counted(f: Forest, n: Path, after: map<Path, nat>, count: nat): map<Path, nat>
    requires IsNode(f, n)
  {
    if IsElement(f, n) then after[n := count + 1] else after
  }

  lemma NumberStep(f: Forest, parent: Path, before: map<Path, nat>, after: map<Path, nat>, k: nat)
    requires IsNode(f, parent) && k < |NodeAt(f, parent).kids| && IsNode(f, parent + [k])
    requires Numbered(f, parent, before, after, k)
    requires forall n | n in before :: IsNode(f, n) && IsElement(f, n)
    ensures Numbered(f, parent, before, Counted(f, parent + [k], after, Elements(f, parent, k)), k + 1)
  {
    var now := Counted(f, parent + [k], after, Elements(f, parent, k));
    var next := k + 1;
    forall n: Path ensures Entry(f, parent, before, now, next, n) {
      assert Entry(f, parent, before, after, k, n);
      if n != [] && Init(n) == parent && Last(n) == k {
        assert n == parent + [k];
      }
    }
  }

  lemma NumberedIsRight(f: Forest, doneName: nat, m: Marks, parent: Path, after: map<Path, nat>)
    requires IsNode(f, parent) && CacheRight(f, doneName, m)
    requires Numbered(f, parent, m.nodeIndex, after, |NodeAt(f, parent).kids|)
    ensures CacheRight(f, doneName, Marks(m.sizcache[parent := doneName], after))
  {
    forall n | n in after
      ensures after[n] > 0 && |n| > 1 && IsNode(f, n) && IsElement(f, n)
      ensures Init(n) == parent ==> after[n] == Position(f, n)
      ensures Init(n) != parent ==> n in m.nodeIndex && after[n] == m.nodeIndex[n]
    {
      assert Entry(f, parent, m.nodeIndex, after, |NodeAt(f, parent).kids|, n);
      if n != [] && Init(n) == parent {
        assert n == parent + [Last(n)];
        if n in m.nodeIndex {
          FamilyIsNode(f, n, 0);
        }
        ChildIsNode(f, parent, Last(n));
        assert Last(n) < |NodeAt(f, parent).kids|;
      }
    }
  }

  /** Another pass may count the same children in between: it takes the parent's mark. */
  lemma CountByOtherPassKeeps(f: Forest, doneName: nat, m: Marks, parent: Path, after: map<Path, nat>, other: nat)
    requires IsNode(f, parent) && CacheRight(f, doneName, m) && other != doneName
    requires Numbered(f, parent, m.nodeIndex, after, |NodeAt(f, parent).kids|)
    ensures CacheRight(f, doneName, Marks(m.sizcache[parent := other], after))
  {
    var byOther := Marks(m.sizcache[parent := other], m.nodeIndex);
    OtherPassKeeps(f, doneName, m, parent, other);
    NumberedIsRight(f, other, m.(sizcache := map[]), parent, after);
    forall n | n in after && Init(n) != parent ensures n in m.nodeIndex && after[n] == m.nodeIndex[n] {
      assert Entry(f, parent, m.nodeIndex, after, |NodeAt(f, parent).kids|, n);
    }
  }

  /** Every pass but this one has right indices as before. */
  ghost predicate OthersKept(f: Forest, doneName: nat, before: Marks, after: Marks) {
    forall other: nat | other != doneName && CacheRight(f, other, before) :: CacheRight(f, other, after)
  }

  /** Every pass begun before has right indices as before. */
  ghost predicate EarlierKept(f: Forest, done: nat, before: Marks, after: Marks) {
    forall name: nat | name < done && CacheRight(f, name, before) :: CacheRight(f, name, after)
  }

  /** A search that marks nodes, or a pass of the CHILD filter. */
  datatype Pass = Marking(nodes: seq<Path>) | Filtering(turns: seq<Turn>, kind: Kind)

  /** The test of one element, and the passes that run before it, for other filters. */
  datatype Turn = Turn(within: seq<Pass>, elem: Path)

  predicate InForest(f: Forest, p: Pass) {
    p.Filtering? ==> forall k | 0 <= k < |p.turns| :: TurnInForest(f, p.turns[k])
  }

  ghost predicate Answered(f: Forest, turns: seq<Turn>, kind: Kind, answers: seq<bool>) {
    && |answers| <= |turns|
    && forall k | 0 <= k < |answers| :: TurnInForest(f, turns[k]) && (answers[k] <==> Answers(f, turns[k].elem, kind))
  }

  predicate TurnInForest(f: Forest, t: Turn) {
    IsNode(f, t.elem) && forall l | 0 <= l < |t.within| :: InForest(f, t.within[l])
  }

  lemma AnsweredSnoc(f: Forest, turns: seq<Turn>, kind: Kind, answers: seq<bool>, pass: bool)
    requires Answered(f, turns, kind, answers) && |answers| < |turns| && TurnInForest(f, turns[|answers|])
    requires pass <==> Answers(f, turns[|answers|].elem, kind)
    ensures Answered(f, turns, kind, answers + [pass])
  {
  }

  lemma EarlierKeptTwice(f: Forest, done: nat, a: Marks, b: Marks, c: Marks)
    requires EarlierKept(f, done, a, b) && EarlierKept(f, done, b, c)
    ensures EarlierKept(f, done, a, c)
  {
  }

  lemma ChildAfter(f: Forest, parent: Path, k: nat)
    requires IsNode(f, parent) && k < |NodeAt(f, parent).kids|
    ensures NextSibling(f, parent + [k]) == if k + 1 < |NodeAt(f, parent).kids| then Some(parent + [k + 1]) else None
  {
    ChildIsNode(f, parent, k + 1);
    assert Init(parent + [k]) == parent && Last(parent + [k]) == k;
  }

  class Children {
    const f: Forest
    var sizcache: map<Path, nat>
    var nodeIndex: map<Path, nat>
    var done: nat

    /** No mark carries a name that is still to be given out. */
    ghost predicate Valid()
      reads this
    {
      Indexed(f, Value()) && forall n | n in sizcache :: sizcache[n] < done
    }

    constructor (f: Forest)
      ensures Valid() && this.f == f
    {
      this.f, sizcache, nodeIndex, done := f, map[], map[], 0;
    }

    ghost function Value(): Marks
      reads this
    {
      Marks(sizcache, nodeIndex)
    }

    method PrecededByElement(elem: Path) returns (found: bool)
      requires IsNode(f, elem)
      ensures found <==> !NoneBefore(f, elem)
    {
      var node := PreviousSibling(elem);
      ghost var k: nat := if |elem| > 1 then Last(elem) else 0;
      while node.Some?
        invariant |elem| > 1 ==> k <= Last(elem) && node == if k == 0 then None else Some(Init(elem) + [k - 1])
        invariant |elem| == 1 ==> node == None
        invariant forall i: nat :: k <= i < Last(elem) && |elem| > 1 ==>
                    IsNode(f, Init(elem) + [i]) && !IsElement(f, Init(elem) + [i])
        decreases k
      {
        FamilyIsNode(f, elem, k - 1);
        if IsElement(f, node.value) {
          return true;
        }
        node, k := PreviousSibling(node.value), k - 1;
      }
      return false;
    }

    method FollowedByElement(elem: Path) returns (found: bool)
      requires IsNode(f, elem)
      ensures found <==> !NoneAfter(f, elem)
    {
      var node := NextSibling(f, elem);
      ghost var k := Last(elem) + 1;
      if |elem| > 1 {
        FamilyIsNode(f, elem, 0);
        ChildIsNode(f, Init(elem), k);
      }
      while node.Some?
        invariant |elem| > 1 ==> k > Last(elem)
        invariant |elem| > 1 ==> node == if IsNode(f, Init(elem) + [k]) then Some(Init(elem) + [k]) else None
        invariant |elem| > 1 ==> IsNode(f, Init(elem)) && k <= |NodeAt(f, Init(elem)).kids|
        invariant |elem| == 1 ==> node == None
        invariant forall i :: Last(elem) < i < k && |elem| > 1 && IsNode(f, Init(elem) + [i]) ==>
                    !IsElement(f, Init(elem) + [i])
        decreases if |elem| > 1 then |NodeAt(f, Init(elem)).kids| - k else 0
      {
        ChildIsNode(f, Init(elem), k);
        ChildIsNode(f, Init(elem), k + 1);
        if IsElement(f, node.value) {
          return true;
        }
        assert Init(node.value) == Init(elem) && Last(node.value) == k;
        node, k := NextSibling(f, node.value), k + 1;
      }
      forall i | i > Last(elem) && |elem| > 1 && IsNode(f, Init(elem) + [i])
        ensures i < k
      {
        ChildIsNode(f, Init(elem), i);
        ChildIsNode(f, Init(elem), k);
      }
      return false;
    }

    /** Number all element children of a parent. */
    method CountChildren(parent: Path, doneName: nat)
      requires IsNode(f, parent) && CacheRight(f, doneName, Value())
      modifies this`sizcache, this`nodeIndex
      ensures CacheRight(f, doneName, Value()) && OthersKept(f, doneName, old(Value()), Value())
      ensures sizcache == old(sizcache)[parent := doneName]
      ensures Numbered(f, parent, old(nodeIndex), nodeIndex, |NodeAt(f, parent).kids|)
    {
      ghost var before := nodeIndex;
      var count := 0;
      ChildIsNode(f, parent, 0);
      var node := FirstChild(f, parent);
      ghost var k := 0;
      while node.Some?
        invariant k <= |NodeAt(f, parent).kids|
        invariant node == if k < |NodeAt(f, parent).kids| then Some(parent + [k]) else None
        invariant count == Elements(f, parent, k)
        invariant Numbered(f, parent, before, nodeIndex, k)
        decreases |NodeAt(f, parent).kids| - k
        modifies this`nodeIndex
      {
        count := CountOne(node.value, count, before, parent, k);
        ChildAfter(f, parent, k);
        node, k := NextSibling(f, node.value), k + 1;
      }
      sizcache := sizcache[parent := doneName];
      NumberedIsRight(f, doneName, Marks(old(sizcache), before), parent, nodeIndex);
      forall other: nat | other != doneName && CacheRight(f, other, old(Value()))
        ensures CacheRight(f, other, Value())
      {
        CountByOtherPassKeeps(f, other, Marks(old(sizcache), before), parent, nodeIndex, doneName);
      }
    }

    method CountOne(node: Path, count: nat, ghost before: map<Path, nat>, ghost parent: Path, ghost k: nat)
      returns (next: nat)
      requires IsNode(f, parent) && k < |NodeAt(f, parent).kids| && node == parent + [k]
      requires count == Elements(f, parent, k) && Numbered(f, parent, before, nodeIndex, k)
      requires forall n | n in before :: IsNode(f, n) && IsElement(f, n)
      modifies this`nodeIndex
      ensures next == Elements(f, parent, k + 1) && Numbered(f, parent, before, nodeIndex, k + 1)
    {
      ChildIsNode(f, parent, k);
      NumberStep(f, parent, before, nodeIndex, k);
      next := count;
      if IsElement(f, node) {
        next := count + 1;
        nodeIndex := nodeIndex[node := next];
      }
    }

    /** `done++`, and then a pass over any elements, whatever other passes come in between: each
        element is answered by its siblings alone, and no pass begun before is misled. */
    method RunPass(p: Pass) returns (answers: seq<bool>)
      requires Valid() && InForest(f, p)
      modifies this
      ensures Valid() && done > old(done) && EarlierKept(f, old(done), old(Value()), Value())
      ensures p.Filtering? ==> |answers| == |p.turns| && Answered(f, p.turns, p.kind, answers)
      decreases p
    {
      ghost var before := Value();
      var doneName := done;
      done := done + 1;
      PassBegins(f, doneName, Value());
      answers := [];
      match p
      case Marking(nodes) =>
        for k := 0 to |nodes|
          invariant Valid() && done == doneName + 1 && EarlierKept(f, doneName, before, Value())
        {
          sizcache := sizcache[nodes[k] := doneName];
        }
      case Filtering(turns, kind) =>
        answers := RunTurns(turns, kind, doneName);
    }

    method RunTurns(turns: seq<Turn>, kind: Kind, doneName: nat) returns (answers: seq<bool>)
      requires Valid() && doneName < done && CacheRight(f, doneName, Value())
      requires forall k | 0 <= k < |turns| :: TurnInForest(f, turns[k])
      modifies this
      ensures Valid() && done >= old(done) && EarlierKept(f, doneName, old(Value()), Value())
      ensures |answers| == |turns| && Answered(f, turns, kind, answers)
      decreases turns
    {
      answers := [];
      for k := 0 to |turns|
        invariant Valid() && done >= old(done)
        invariant CacheRight(f, doneName, Value()) && EarlierKept(f, doneName, old(Value()), Value())
        invariant |answers| == k && Answered(f, turns, kind, answers)
      {
        ghost var before := Value();
        assert TurnInForest(f, turns[k]);
        var pass := RunTurn(turns[k], kind, doneName);
        EarlierKeptTwice(f, doneName, old(Value()), before, Value());
        AnsweredSnoc(f, turns, kind, answers, pass);
        answers := answers + [pass];
      }
    }

    method RunTurn(turn: Turn, kind: Kind, doneName: nat) returns (pass: bool)
      requires Valid() && doneName < done && CacheRight(f, doneName, Value()) && TurnInForest(f, turn)
      modifies this
      ensures Valid() && done >= old(done)
      ensures CacheRight(f, doneName, Value()) && EarlierKept(f, doneName, old(Value()), Value())
      ensures pass <==> Answers(f, turn.elem, kind)
      decreases turn
    {
      RunAll(turn.within);
      pass := Child(turn.elem, kind, doneName);
    }

    method RunAll(ps: seq<Pass>)
      requires Valid() && forall l | 0 <= l < |ps| :: InForest(f, ps[l])
      modifies this
      ensures Valid() && done >= old(done) && EarlierKept(f, old(done), old(Value()), Value())
      decreases ps
    {
      for l := 0 to |ps|
        invariant Valid() && done >= old(done) && EarlierKept(f, old(done), old(Value()), Value())
      {
        var _ := RunPass(ps[l]);
      }
    }

    method Child(elem: Path, kind: Kind, doneName: nat) returns (pass: bool)
      requires Valid() && doneName < done && IsNode(f, elem) && CacheRight(f, doneName, Value())
      modifies this`sizcache, this`nodeIndex
      ensures Valid() && CacheRight(f, doneName, Value()) && OthersKept(f, doneName, old(Value()), Value())
      ensures pass <==> Answers(f, elem, kind)
    {
      match kind {
        case IsFirst =>
          var before := PrecededByElement(elem);
          return !before;
        case IsLast =>
          var after := FollowedByElement(elem);
          return !after;
        case IsOnly =>
          var before := PrecededByElement(elem);
          if before {
            return false;
          }
          var after := FollowedByElement(elem);
          return !after;
        case Nth(a, b) =>
          pass := NthChild(elem, a, b, doneName);
      }
    }

    method NthChild(elem: Path, a: int, b: int, doneName: nat) returns (pass: bool)
      requires Valid() && doneName < done && IsNode(f, elem) && CacheRight(f, doneName, Value())
      modifies this`sizcache, this`nodeIndex
      ensures Valid() && CacheRight(f, doneName, Value()) && OthersKept(f, doneName, old(Value()), Value())
      ensures pass <==> Answers(f, elem, Nth(a, b))
    {
      if a == 1 && b == 0 {
        return true;
      }
      var parent := Parent(elem);
      if parent.Some? {
        FamilyIsNode(f, elem, 0);
        if parent.value !in sizcache || sizcache[parent.value] != doneName || elem !in nodeIndex {
          ghost var before := nodeIndex;
          CountChildren(parent.value, doneName);
          assert Entry(f, parent.value, before, nodeIndex, |NodeAt(f, parent.value).kids|, elem);
        }
      }
      if elem !in nodeIndex {
        // undefined - last is NaN, and neither test holds of it
        return false;
      }
      var diff := nodeIndex[elem] - b;
      FormulaIsRepresents(a, b, nodeIndex[elem]);
      pass := if a == 0 then diff == 0 else Remainder(diff, a) == 0 && diff as real / a as real >= 0.0;
    }
  }
}
