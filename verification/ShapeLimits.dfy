/** Exactly which sequences of combinators the greedy search gets right on every page: for each
    other sequence there is a page, and compound selectors, for which a match is missed. */
module ShapeLimits {
  import opened Dom
  import opened Relative
  import opened Narrowing

  function Zip(combs: seq<Combinator>, parts: seq<Part>): (r: seq<Step>)
    requires |parts| == |combs|
    ensures |r| == |combs| && forall i | 0 <= i < |r| :: r[i] == (combs[i], parts[i])
  {
    seq(|combs|, i requires 0 <= i < |combs| => (combs[i], parts[i]))
  }

  lemma ZipTail(combs: seq<Combinator>, parts: seq<Part>)
    requires |parts| == |combs| && combs != []
    ensures Zip(combs, parts)[0] == (combs[0], parts[0])
    ensures Zip(combs, parts)[1..] == Zip(combs[1..], parts[1..])
  {
  }

  /** On every page, for all compounds between these combinators, the search is exact; `inContext`
      is about selectors that begin with a combinator, as in "> a b", run in an element context. */
  ghost predicate AlwaysExact(combs: seq<Combinator>, inContext: bool) {
    forall f: Forest, scope: Path, parts: seq<Part>, n: Path | Applies(f, scope, combs, parts, n, inContext) ::
      Finds(f, scope, Zip(combs, parts), n) <==> Meaning(f, scope, Zip(combs, parts), n)
  }

  ghost predicate Applies(f: Forest, scope: Path, combs: seq<Combinator>, parts: seq<Part>, n: Path, inContext: bool) {
    && |parts| == |combs|
    && Attached(f) && IsNode(f, scope) && IsNode(f, n) && IsElement(f, n)
    && (inContext ==> parts != [] && IsElement(f, scope))
    && forall i | 0 <= i < |parts| ::
         if inContext && i == |parts| - 1 then parts[i] == Context(scope)
         else !parts[i].Context? && Selects(f, parts[i])
  }

  lemma AppliesToSelector(f: Forest, scope: Path, combs: seq<Combinator>, parts: seq<Part>, n: Path, inContext: bool)
    requires Applies(f, scope, combs, parts, n, inContext)
    ensures Selector(f, Zip(combs, parts)) && RunsIn(Zip(combs, parts), scope)
    ensures IsElement(f, scope) || !EndsInContext(Zip(combs, parts))
    ensures Combinators(Zip(combs, parts)) == combs
  {
  }

  // ---- a page with room in both directions ----

  /** `depth` levels of `width` elements; the last element of each level holds the next one. */
  function Level(width: nat, depth: nat): seq<Tree>
    decreases depth
  {
    if depth == 0 then []
    else seq(width, i => Node(ELEMENT_NODE, "", if i == width - 1 then Level(width, depth - 1) else []))
  }

  function Grid(width: nat, depth: nat): Forest {
    [Node(9, "#document", Level(width, depth))]
  }

  predicate InGrid(width: nat, depth: nat, n: Path) {
    && 2 <= |n| <= depth + 1 && n[0] == 0 && Last(n) < width
    && forall j | 1 <= j < |n| - 1 :: n[j] == width - 1
  }

  lemma {:induction false} LevelNodes(t: Tree, width: nat, depth: nat, p: Path)
    requires t.kids == Level(width, depth) && p != []
    ensures |p| <= depth && Last(p) < width && (forall j | 0 <= j < |p| - 1 :: p[j] == width - 1) ==> InTree(t, p)
    ensures InTree(t, p) ==> At(t, p).nodeType == ELEMENT_NODE
    decreases |p|
  {
    if depth > 0 && p[0] < width && |p| > 1 {
      var kid := t.kids[p[0]];
      assert p[1..][|p| - 2] == Last(p);
      LevelNodes(kid, width, if p[0] == width - 1 then depth - 1 else 0, p[1..]);
    }
  }

  lemma GridNode(width: nat, depth: nat, n: Path)
    requires InGrid(width, depth, n)
    ensures IsNode(Grid(width, depth), n) && IsElement(Grid(width, depth), n)
  {
    assert n[1..][|n| - 2] == Last(n);
    LevelNodes(Grid(width, depth)[0], width, depth, n[1..]);
  }

  lemma GridSelects(width: nat, depth: nat, part: Part)
    requires part.Filter? && forall n | part.test(n) :: |n| > 1
    ensures Attached(Grid(width, depth)) && Selects(Grid(width, depth), part)
  {
    var f := Grid(width, depth);
    forall n | IsNode(f, n) && Passes(f, part, n) ensures IsElement(f, n) {
      LevelNodes(f[0], width, depth, n[1..]);
    }
  }

  /** Where a step leads when the nearest node will do. */
  function Nearest(comb: Combinator, n: Path): Path
    requires |n| > 1 && Last(n) > 0
  {
    if comb.Child? || comb.Descendant? then Init(n) else Init(n) + [Last(n) - 1]
  }

  /** At least `k` more steps in any direction. */
  predicate Room(width: nat, depth: nat, n: Path, k: nat) {
    InGrid(width, depth, n) && width >= k + 4 && |n| >= k + 4 && Last(n) >= k + 3
  }

  lemma NearestHasRoom(width: nat, depth: nat, comb: Combinator, n: Path, k: nat)
    requires Room(width, depth, n, k)
    ensures InGrid(width, depth, Nearest(comb, n)) && Last(Nearest(comb, n)) >= k + 2
    ensures |Nearest(comb, n)| >= k + 3 && width >= k + 4
    ensures k > 0 ==> Room(width, depth, Nearest(comb, n), k - 1)
  {
  }

  function Any(): Part {
    Filter((n: Path) => |n| > 1)
  }

  lemma NearestStep(width: nat, depth: nat, comb: Combinator, part: Part, n: Path)
    requires InGrid(width, depth, n) && |n| > 2 && Last(n) > 0 && InGrid(width, depth, Nearest(comb, n))
    requires part.Filter? && part.test(Nearest(comb, n))
    ensures IsNode(Grid(width, depth), n) && IsNode(Grid(width, depth), Nearest(comb, n))
    ensures Related(Grid(width, depth), comb, n, Nearest(comb, n)) && Hit(Grid(width, depth), part, Nearest(comb, n))
    ensures NextSlot(Grid(width, depth), comb, part, Elem(n)) == Elem(Nearest(comb, n))
  {
    var f, m := Grid(width, depth), Nearest(comb, n);
    GridNode(width, depth, n);
    GridNode(width, depth, m);
    if comb.Adjacent? {
      PreviousElementIsAdjacent(f, n, m);
    }
  }

  function AllAny(k: nat): seq<Part> {
    seq(k, _ => Any())
  }

  /** Parts that accept any element, the last of them the context. */
  function Rest(k: nat, scope: Path, inContext: bool): (r: seq<Part>)
    ensures |r| == k
  {
    if inContext && k > 0 then AllAny(k - 1) + [Context(scope)] else AllAny(k)
  }

  lemma {:induction false} FreeWalk(width: nat, depth: nat, combs: seq<Combinator>, n: Path, inContext: bool)
    returns (scope: Path)
    requires Room(width, depth, n, |combs|) && (inContext ==> combs != [])
    ensures IsNode(Grid(width, depth), n) && IsNode(Grid(width, depth), scope)
    ensures inContext ==> IsElement(Grid(width, depth), scope)
    ensures Meaning(Grid(width, depth), scope, Zip(combs, Rest(|combs|, scope, inContext)), n)
    decreases |combs|
  {
    GridNode(width, depth, n);
    if combs == [] {
      scope := [0];
    } else if inContext && |combs| == 1 {
      scope := StepToContext(width, depth, combs[0], n);
      assert Zip(combs, Rest(1, scope, true)) == [(combs[0], Context(scope))];
    } else {
      NearestHasRoom(width, depth, combs[0], n, |combs|);
      scope := FreeWalk(width, depth, combs[1..], Nearest(combs[0], n), inContext);
      assert Rest(|combs|, scope, inContext)[1..] == Rest(|combs| - 1, scope, inContext);
      FreeStep(width, depth, scope, combs, Rest(|combs|, scope, inContext), n);
    }
  }

  /** A first step that any element will do for. */
  lemma FreeStep(width: nat, depth: nat, scope: Path, combs: seq<Combinator>, parts: seq<Part>, n: Path)
    requires |combs| > 0 && |parts| == |combs| && parts[0] == Any() && Room(width, depth, n, |combs|)
    requires IsNode(Grid(width, depth), scope) && IsNode(Grid(width, depth), Nearest(combs[0], n))
    requires Meaning(Grid(width, depth), scope, Zip(combs[1..], parts[1..]), Nearest(combs[0], n))
    ensures IsNode(Grid(width, depth), n) && Meaning(Grid(width, depth), scope, Zip(combs, parts), n)
  {
    NearestHasRoom(width, depth, combs[0], n, |combs|);
    NearestStep(width, depth, combs[0], Any(), n);
    ZipTail(combs, parts);
    assert Witness(Grid(width, depth), scope, Zip(combs, parts), n, Nearest(combs[0], n));
  }

  /** One step, and there is the context. */
  lemma StepToContext(width: nat, depth: nat, comb: Combinator, n: Path) returns (scope: Path)
    requires Room(width, depth, n, 1)
    ensures scope == Nearest(comb, n) && IsNode(Grid(width, depth), n)
    ensures IsNode(Grid(width, depth), scope) && IsElement(Grid(width, depth), scope)
    ensures Meaning(Grid(width, depth), scope, [(comb, Context(scope))], n)
  {
    scope := Nearest(comb, n);
    NearestHasRoom(width, depth, comb, n, 1);
    NearestStep(width, depth, comb, Any(), n);
    GridNode(width, depth, scope);
    assert Witness(Grid(width, depth), scope, [(comb, Context(scope))], n, scope);
  }

  /** What the second step must not accept: all that is related to the nearest node. */
  function Blocking(first: Combinator, second: Combinator, q: Path): Part
    requires |q| > 1 && Last(q) > 0
  {
    if first.Descendant? then
      var length := if second.Child? then |q| - 1 else |q|;
      Filter((n: Path) => |n| > 1 && |n| != length)
    else
      var target := Nearest(Adjacent, q);
      Filter((n: Path) => |n| > 1 && n != target)
  }

  /** A match that the search misses. */
  ghost predicate Refuted(width: nat, depth: nat, scope: Path, combs: seq<Combinator>, parts: seq<Part>, n: Path,
                          inContext: bool) {
    var f := Grid(width, depth);
    && Applies(f, scope, combs, parts, n, inContext)
    && Meaning(f, scope, Zip(combs, parts), n) && !Finds(f, scope, Zip(combs, parts), n)
  }

  lemma BlockIsUsable(width: nat, depth: nat, first: Combinator, second: Combinator, q: Path)
    requires |q| > 1 && Last(q) > 0
    ensures Attached(Grid(width, depth)) && Selects(Grid(width, depth), Blocking(first, second, q))
    ensures Selects(Grid(width, depth), Any())
  {
    GridSelects(width, depth, Blocking(first, second, q));
    GridSelects(width, depth, Any());
  }

  /** From the nearest node the second step finds nothing. */
  lemma BlockedAtNearest(width: nat, depth: nat, first: Combinator, second: Combinator, q: Path)
    requires !Compatible(first, second) && Room(width, depth, q, 1)
    ensures IsNode(Grid(width, depth), q) && IsElement(Grid(width, depth), q)
    ensures NextSlot(Grid(width, depth), second, Blocking(first, second, q), Elem(q)) == False
  {
    var f, block := Grid(width, depth), Blocking(first, second, q);
    GridNode(width, depth, q);
    BlockIsUsable(width, depth, first, second, q);
    if NextSlot(f, second, block, Elem(q)) != False {
      var m := StepFindsRelated(f, (second, block), q);
      NearestHasRoom(width, depth, Adjacent, q, 1);
      NearestStep(width, depth, Adjacent, Any(), q);
      PreviousElementIsAdjacent(f, q, Nearest(Adjacent, q));
      PreviousElementIsAdjacent(f, q, m);
    }
  }

  /** From the node after it the second step goes on. */
  lemma FreeBeyondNearest(width: nat, depth: nat, first: Combinator, second: Combinator, n: Path)
    requires !Compatible(first, second) && Room(width, depth, n, 3)
    ensures InGrid(width, depth, Nearest(first, n)) && Last(Nearest(first, n)) > 0
    ensures var q := Nearest(first, n); var far := Nearest(first, q);
            && IsNode(Grid(width, depth), n) && InGrid(width, depth, far) && |far| > 2 && Last(far) > 0
            && IsNode(Grid(width, depth), far)
            && Related(Grid(width, depth), first, n, far) && Any().test(far)
            && InGrid(width, depth, Nearest(second, far)) && Blocking(first, second, q).test(Nearest(second, far))
  {
    var q := Nearest(first, n);
    NearestHasRoom(width, depth, first, n, 3);
    var far := Nearest(first, q);
    NearestHasRoom(width, depth, first, q, 2);
    NearestHasRoom(width, depth, second, far, 1);
    GridNode(width, depth, n);
    GridNode(width, depth, far);
    if first.Descendant? {
      assert n[..|far|] == far;
    }
  }

  /** Two steps that do not go together: the nearest node is a dead end, the next one is not. */
  lemma DeadEnd(width: nat, depth: nat, combs: seq<Combinator>, n: Path, inContext: bool)
    returns (parts: seq<Part>, scope: Path)
    requires |combs| >= 2 && !Compatible(combs[0], combs[1]) && Room(width, depth, n, |combs| + 1)
    ensures Refuted(width, depth, scope, combs, parts, n, inContext)
  {
    if inContext && |combs| == 2 {
      parts, scope := DeadEndAtContext(width, depth, combs, n);
    } else {
      parts, scope := DeadEndInside(width, depth, combs, n, inContext);
    }
  }

  /** The second step is kept from the nearest node by its own compound, */
  lemma DeadEndInside(width: nat, depth: nat, combs: seq<Combinator>, n: Path, inContext: bool)
    returns (parts: seq<Part>, scope: Path)
    requires |combs| >= 2 && !Compatible(combs[0], combs[1]) && Room(width, depth, n, |combs| + 1)
    requires inContext ==> |combs| > 2
    ensures Refuted(width, depth, scope, combs, parts, n, inContext)
  {
    var f, q := Grid(width, depth), Nearest(combs[0], n);
    NearestHasRoom(width, depth, combs[0], n, |combs| + 1);
    NearestHasRoom(width, depth, combs[0], q, |combs|);
    var far := Nearest(combs[0], q);
    NearestHasRoom(width, depth, combs[1], far, |combs| - 1);
    scope := FreeWalk(width, depth, combs[2..], Nearest(combs[1], far), inContext);
    parts := [Any(), Blocking(combs[0], combs[1], q)] + Rest(|combs| - 2, scope, inContext);
    BlockedApplies(width, depth, scope, combs, parts, n, inContext);
    AppliesToSelector(f, scope, combs, parts, n, inContext);
    SearchEnds(width, depth, scope, combs, parts, n);
    assert parts[2..] == Rest(|combs| - 2, scope, inContext);
    MatchExists(width, depth, scope, combs, parts, n);
  }

  lemma BlockedApplies(width: nat, depth: nat, scope: Path, combs: seq<Combinator>, parts: seq<Part>, n: Path,
                       inContext: bool)
    requires |combs| >= 2 && Room(width, depth, n, |combs| + 1) && (inContext ==> |combs| > 2)
    requires IsNode(Grid(width, depth), scope) && (inContext ==> IsElement(Grid(width, depth), scope))
    requires parts == [Any(), Blocking(combs[0], combs[1], Nearest(combs[0], n))] + Rest(|combs| - 2, scope, inContext)
    ensures Applies(Grid(width, depth), scope, combs, parts, n, inContext)
  {
    var block := Blocking(combs[0], combs[1], Nearest(combs[0], n));
    GridNode(width, depth, n);
    NearestHasRoom(width, depth, combs[0], n, |combs| + 1);
    BlockIsUsable(width, depth, combs[0], combs[1], Nearest(combs[0], n));
    assert forall i | 0 <= i < |parts| ::
        if inContext && i == |parts| - 1 then parts[i] == Context(scope) else parts[i] == Any() || parts[i] == block;
  }

  /** or the second step leads to the context, and from the nearest node it does not. */
  lemma DeadEndAtContext(width: nat, depth: nat, combs: seq<Combinator>, n: Path)
    returns (parts: seq<Part>, scope: Path)
    requires |combs| == 2 && !Compatible(combs[0], combs[1]) && Room(width, depth, n, 3)
    ensures Refuted(width, depth, scope, combs, parts, n, true)
  {
    var f, q := Grid(width, depth), Nearest(combs[0], n);
    NearestHasRoom(width, depth, combs[0], n, 3);
    NearestHasRoom(width, depth, combs[0], q, 2);
    scope := StepToContext(width, depth, combs[1], Nearest(combs[0], q));
    parts := [Any(), Context(scope)];
    GridNode(width, depth, n);
    GridSelects(width, depth, Any());
    AppliesToSelector(f, scope, combs, parts, n, true);
    ContextOutOfReach(width, depth, combs[0], combs[1], q);
    SearchEndsAt(width, depth, scope, combs, parts, n);
    MatchAtContext(width, depth, scope, combs[0], combs[1], n);
    assert Zip(combs, parts) == [(combs[0], Any()), (combs[1], Context(scope))];
  }

  lemma MatchAtContext(width: nat, depth: nat, scope: Path, first: Combinator, second: Combinator, n: Path)
    requires !Compatible(first, second) && Room(width, depth, n, 3) && IsNode(Grid(width, depth), scope)
    requires FarIsFree(width, depth, scope, first, second, n)
    ensures IsNode(Grid(width, depth), n)
    ensures Meaning(Grid(width, depth), scope, [(first, Any()), (second, Context(scope))], n)
  {
    NearestHasRoom(width, depth, first, n, 3);
    var far := Nearest(first, Nearest(first, n));
    FreeBeyondNearest(width, depth, first, second, n);
    GridNode(width, depth, far);
    var steps: seq<Step> := [(first, Any()), (second, Context(scope))];
    assert steps[1..] == [(second, Context(scope))];
    assert Witness(Grid(width, depth), scope, steps, n, far);
  }

  /** From the farther node the second step leads to the context. */
  ghost predicate FarIsFree(width: nat, depth: nat, scope: Path, first: Combinator, second: Combinator, n: Path)
    requires Room(width, depth, n, 3) && IsNode(Grid(width, depth), scope)
  {
    NearestHasRoom(width, depth, first, n, 3);
    var far := Nearest(first, Nearest(first, n));
    IsNode(Grid(width, depth), far) && Meaning(Grid(width, depth), scope, [(second, Context(scope))], far)
  }

  /** Where the second step leads from the farther node is out of its reach from the nearest. */
  lemma ContextOutOfReach(width: nat, depth: nat, first: Combinator, second: Combinator, q: Path)
    requires !Compatible(first, second) && Room(width, depth, q, 2)
    ensures Last(Nearest(first, q)) > 0 && |Nearest(first, q)| > 1
    ensures IsNode(Grid(width, depth), q) && IsElement(Grid(width, depth), q)
    ensures NextSlot(Grid(width, depth), second, Context(Nearest(second, Nearest(first, q))), Elem(q)) == False
  {
    var f := Grid(width, depth);
    NearestHasRoom(width, depth, first, q, 2);
    GridNode(width, depth, q);
    GridSelects(width, depth, Any());
    var context := Context(Nearest(second, Nearest(first, q)));
    if NextSlot(f, second, context, Elem(q)) != False {
      var m := StepFindsRelated(f, (second, context), q);
      if first.Sibling? {
        NearestStep(width, depth, Adjacent, Any(), q);
        PreviousElementIsAdjacent(f, q, Nearest(Adjacent, q));
        PreviousElementIsAdjacent(f, q, m);
      }
    }
  }

  lemma SearchEnds(width: nat, depth: nat, scope: Path, combs: seq<Combinator>, parts: seq<Part>, n: Path)
    requires |combs| >= 2 && !Compatible(combs[0], combs[1]) && Room(width, depth, n, |combs| + 1)
    requires |parts| == |combs| && parts[0] == Any() && parts[1] == Blocking(combs[0], combs[1], Nearest(combs[0], n))
    requires Attached(Grid(width, depth)) && Selector(Grid(width, depth), Zip(combs, parts))
    requires IsNode(Grid(width, depth), scope)
    ensures IsNode(Grid(width, depth), n) && IsElement(Grid(width, depth), n)
    ensures !Finds(Grid(width, depth), scope, Zip(combs, parts), n)
  {
    NearestHasRoom(width, depth, combs[0], n, |combs| + 1);
    BlockedAtNearest(width, depth, combs[0], combs[1], Nearest(combs[0], n));
    SearchEndsAt(width, depth, scope, combs, parts, n);
  }

  /** A search whose second step finds nothing from the nearest node. */
  lemma SearchEndsAt(width: nat, depth: nat, scope: Path, combs: seq<Combinator>, parts: seq<Part>, n: Path)
    requires |combs| >= 2 && Room(width, depth, n, |combs| + 1) && |parts| == |combs| && parts[0] == Any()
    requires Attached(Grid(width, depth)) && Selector(Grid(width, depth), Zip(combs, parts))
    requires IsNode(Grid(width, depth), scope) && IsNode(Grid(width, depth), Nearest(combs[0], n))
    requires IsElement(Grid(width, depth), Nearest(combs[0], n))
    requires NextSlot(Grid(width, depth), combs[1], parts[1], Elem(Nearest(combs[0], n))) == False
    ensures IsNode(Grid(width, depth), n) && IsElement(Grid(width, depth), n)
    ensures !Finds(Grid(width, depth), scope, Zip(combs, parts), n)
  {
    var f, steps, q := Grid(width, depth), Zip(combs, parts), Nearest(combs[0], n);
    GridNode(width, depth, n);
    NearestHasRoom(width, depth, combs[0], n, |combs| + 1);
    NearestStep(width, depth, combs[0], Any(), n);
    StepKeepsNarrowable(f, steps, Elem(n));
    assert steps[1..][0] == (combs[1], parts[1]);
    StepKeepsNarrowable(f, steps[1..], Elem(q));
    GreedyOfFalse(f, steps[1..][1..]);
    assert Greedy(f, steps, Elem(n)) == Greedy(f, steps[1..], Elem(q)) == Greedy(f, steps[1..][1..], False);
  }

  lemma MatchExists(width: nat, depth: nat, scope: Path, combs: seq<Combinator>, parts: seq<Part>, n: Path)
    requires |combs| >= 2 && !Compatible(combs[0], combs[1]) && Room(width, depth, n, |combs| + 1)
    requires |parts| == |combs| && parts[0] == Any() && parts[1] == Blocking(combs[0], combs[1], Nearest(combs[0], n))
    requires RestMatches(width, depth, scope, combs, parts, n)
    ensures IsNode(Grid(width, depth), n) && IsNode(Grid(width, depth), scope)
    ensures Meaning(Grid(width, depth), scope, Zip(combs, parts), n)
  {
    var f, steps, q := Grid(width, depth), Zip(combs, parts), Nearest(combs[0], n);
    FreeBeyondNearest(width, depth, combs[0], combs[1], n);
    NearestHasRoom(width, depth, combs[0], n, |combs| + 1);
    NearestHasRoom(width, depth, combs[0], q, |combs|);
    var far := Nearest(combs[0], q);
    MatchBeyond(width, depth, scope, combs, parts, far);
    ZipTail(combs, parts);
    GridNode(width, depth, far);
    assert Witness(f, scope, steps, n, far);
  }

  /** Behind the second step, taken from the farther node, the rest matches. */
  ghost predicate RestMatches(width: nat, depth: nat, scope: Path, combs: seq<Combinator>, parts: seq<Part>, n: Path)
    requires |combs| >= 2 && |parts| == |combs| && Room(width, depth, n, |combs| + 1)
  {
    NearestHasRoom(width, depth, combs[0], n, |combs| + 1);
    NearestHasRoom(width, depth, combs[0], Nearest(combs[0], n), |combs|);
    var next := Nearest(combs[1], Nearest(combs[0], Nearest(combs[0], n)));
    && IsNode(Grid(width, depth), scope) && IsNode(Grid(width, depth), next)
    && Meaning(Grid(width, depth), scope, Zip(combs[2..], parts[2..]), next)
  }

  /** From a node where the blocking part lets the next step pass, the rest matches. */
  lemma MatchBeyond(width: nat, depth: nat, scope: Path, combs: seq<Combinator>, parts: seq<Part>, far: Path)
    requires |combs| >= 2 && |parts| == |combs| && Room(width, depth, far, |combs| - 1)
    requires parts[1].Filter? && parts[1].test(Nearest(combs[1], far))
    requires IsNode(Grid(width, depth), scope) && IsNode(Grid(width, depth), Nearest(combs[1], far))
    requires Meaning(Grid(width, depth), scope, Zip(combs[2..], parts[2..]), Nearest(combs[1], far))
    ensures IsNode(Grid(width, depth), far) && Meaning(Grid(width, depth), scope, Zip(combs[1..], parts[1..]), far)
  {
    var f := Grid(width, depth);
    var next := Nearest(combs[1], far);
    NearestHasRoom(width, depth, combs[1], far, |combs| - 1);
    NearestStep(width, depth, combs[1], parts[1], far);
    ZipTail(combs[1..], parts[1..]);
    assert combs[1..][1..] == combs[2..] && parts[1..][1..] == parts[2..];
    GridNode(width, depth, far);
    assert Witness(f, scope, Zip(combs[1..], parts[1..]), far, next);
  }

  /** Wherever the two steps stand in the sequence, the search misses a match. */
  lemma {:induction false} Refute(width: nat, depth: nat, combs: seq<Combinator>, at: nat, n: Path, inContext: bool)
    returns (parts: seq<Part>, scope: Path)
    requires at + 1 < |combs| && !Compatible(combs[at], combs[at + 1]) && Room(width, depth, n, |combs| + 1)
    ensures Refuted(width, depth, scope, combs, parts, n, inContext)
    decreases at
  {
    if at == 0 {
      parts, scope := DeadEnd(width, depth, combs, n, inContext);
    } else {
      var m := Nearest(combs[0], n);
      NearestHasRoom(width, depth, combs[0], n, |combs| + 1);
      var rest;
      rest, scope := Refute(width, depth, combs[1..], at - 1, m, inContext);
      parts := [Any()] + rest;
      RefutedEarlier(width, depth, scope, combs, parts, n, inContext);
    }
  }

  /** A step that always finds its nearest node carries a miss further to the right. */
  lemma RefutedEarlier(width: nat, depth: nat, scope: Path, combs: seq<Combinator>, parts: seq<Part>, n: Path,
                       inContext: bool)
    requires |combs| > 0 && Room(width, depth, n, |combs| + 1)
    requires |parts| == |combs| && parts[0] == Any()
    requires Refuted(width, depth, scope, combs[1..], parts[1..], Nearest(combs[0], n), inContext)
    ensures Refuted(width, depth, scope, combs, parts, n, inContext)
  {
    var f, m, steps := Grid(width, depth), Nearest(combs[0], n), Zip(combs, parts);
    AppliesEarlier(width, depth, scope, combs, parts, n, inContext);
    AppliesToSelector(f, scope, combs, parts, n, inContext);
    NearestHasRoom(width, depth, combs[0], n, |combs| + 1);
    NearestStep(width, depth, combs[0], Any(), n);
    StepKeepsNarrowable(f, steps, Elem(n));
    ZipTail(combs, parts);
    assert Witness(f, scope, steps, n, m);
    assert Greedy(f, steps, Elem(n)) == Greedy(f, steps[1..], Elem(m));
  }

  lemma AppliesEarlier(width: nat, depth: nat, scope: Path, combs: seq<Combinator>, parts: seq<Part>, n: Path,
                       inContext: bool)
    requires |combs| > 0 && Room(width, depth, n, |combs| + 1)
    requires |parts| == |combs| && parts[0] == Any()
    requires Applies(Grid(width, depth), scope, combs[1..], parts[1..], Nearest(combs[0], n), inContext)
    ensures Applies(Grid(width, depth), scope, combs, parts, n, inContext)
  {
    GridSelects(width, depth, Any());
    GridNode(width, depth, n);
    assert forall i | 0 < i < |parts| :: parts[i] == parts[1..][i - 1];
  }

  /** The greedy search is right on every page exactly when the combinators are admissible, for
      selectors that begin with a compound and for those that begin in the context. */
  lemma ShapeIsExact(combs: seq<Combinator>, inContext: bool)
    ensures Admissible(combs) <==> AlwaysExact(combs, inContext)
  {
    if Admissible(combs) {
      forall f: Forest, scope: Path, parts: seq<Part>, n: Path | Applies(f, scope, combs, parts, n, inContext)
        ensures Finds(f, scope, Zip(combs, parts), n) <==> Meaning(f, scope, Zip(combs, parts), n)
      {
        AppliesToSelector(f, scope, combs, parts, n, inContext);
        GreedyIsMeaning(f, scope, Zip(combs, parts), n);
      }
    } else {
      var at :| 0 <= at < |combs| - 1 && !Compatible(combs[at], combs[at + 1]);
      var k := |combs| + 5;
      var n := [0] + seq(k, _ => k - 1);
      var parts, scope := Refute(k, k, combs, at, n, inContext);
      AppliesToSelector(Grid(k, k), scope, combs, parts, n, inContext);
    }
  }
}
