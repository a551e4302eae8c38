/** The main loop of Sizzle: the parts of a selector are consumed from right to left, and each
    candidate is replaced by the single node the greedy search found for the part. */
module Narrowing {
  import opened Wrappers
  import opened Dom
  import opened Relative
  import opened Sequences

  type Step = (Combinator, Part)

  // ---- what a selector means (Selectors Level 3, section 8) ----

  /** `m` lies strictly beyond `n` on the chain. */
  predicate Behind(dir: Dir, n: Path, m: Path) {
    match dir
    case ParentNode => 0 < |m| < |n| && n[..|m|] == m
    case PreviousSiblingNode => |n| > 1 && |m| == |n| && Init(m) == Init(n) && Last(m) < Last(n)
  }

  ghost predicate Related(f: Forest, comb: Combinator, n: Path, m: Path)
    requires IsNode(f, n) && IsNode(f, m)
  {
    match comb
    case Child => |n| > 1 && m == Init(n)
    case Descendant => Behind(ParentNode, n, m)
    case Sibling => Behind(PreviousSiblingNode, n, m)
    case Adjacent =>
      Behind(PreviousSiblingNode, n, m) && IsElement(f, m)
      && forall k | IsNode(f, k) && Behind(PreviousSiblingNode, n, k) && Behind(PreviousSiblingNode, k, m) ::
           !IsElement(f, k)
  }

  /** Inside an element context only its descendants count; a document context admits every node. */
  predicate InScope(f: Forest, scope: Path, n: Path)
    requires IsNode(f, scope)
  {
    IsElement(f, scope) ==> Behind(ParentNode, n, scope)
  }

  ghost predicate Witness(f: Forest, scope: Path, steps: seq<Step>, n: Path, m: Path)
    requires IsNode(f, n) && IsNode(f, scope) && steps != []
    decreases |steps|, 0
  {
    IsNode(f, m) && Related(f, steps[0].0, n, m)
    && if steps[0].1.Context? then m == scope else Hit(f, steps[0].1, m) && Meaning(f, scope, steps[1..], m)
  }

  /** Some assignment of nodes to the remaining parts satisfies every combinator. */
  ghost predicate Meaning(f: Forest, scope: Path, steps: seq<Step>, n: Path)
    requires IsNode(f, n) && IsNode(f, scope)
    decreases |steps|, 1
  {
    if steps == [] then InScope(f, scope, n) else exists m :: Witness(f, scope, steps, n, m)
  }

  lemma MeaningHasWitness(f: Forest, scope: Path, steps: seq<Step>, n: Path) returns (m: Path)
    requires IsNode(f, n) && IsNode(f, scope) && steps != [] && Meaning(f, scope, steps, n)
    ensures Witness(f, scope, steps, n, m)
  {
    m :| Witness(f, scope, steps, n, m);
  }

  // ---- what the greedy search computes ----

  /** No root is an element, so that every element has a parent. */
  ghost predicate Attached(f: Forest) {
    forall r | 0 <= r < |f| :: f[r].nodeType != ELEMENT_NODE
  }

  ghost predicate Selects(f: Forest, part: Part) {
    forall n | IsNode(f, n) && Passes(f, part, n) :: IsElement(f, n)
  }

  /** A compound selector selects elements; the context node may only be the last part. */
  ghost predicate Selector(f: Forest, steps: seq<Step>) {
    forall i | 0 <= i < |steps| :: if steps[i].1.Context? then i == |steps| - 1 else Selects(f, steps[i].1)
  }

  /** A context part stands for the context the selector is run in. */
  ghost predicate RunsIn(steps: seq<Step>, scope: Path) {
    forall i | 0 <= i < |steps| && steps[i].1.Context? :: steps[i].1.node == scope
  }

  ghost predicate Narrowable(f: Forest, steps: seq<Step>, s: Slot) {
    (s.Elem? ==> IsNode(f, s.node) && IsElement(f, s.node)) && (s.True? ==> steps == [])
  }

  lemma {:induction false} FirstHitIsHit(f: Forest, dir: Dir, part: Part, n: Path) returns (m: Path)
    requires IsNode(f, n) && FirstBeyond(f, dir, part, n) != False
    ensures IsNode(f, m) && Behind(dir, n, m) && Hit(f, part, m) && FirstBeyond(f, dir, part, n) == Found(part, m)
    decreases Left(dir, Some(n))
  {
    AlongStaysOnPage(f, dir, n);
    m := Along(dir, n).value;
    if !Hit(f, part, m) {
      m := FirstHitIsHit(f, dir, part, m);
    }
  }

  /** A hit anywhere on the chain is at or beyond the one the search finds. */
  lemma {:induction false} FirstHitIsNearest(f: Forest, dir: Dir, part: Part, n: Path, m: Path)
    requires IsNode(f, n) && IsNode(f, m) && Behind(dir, n, m) && Hit(f, part, m)
    ensures FirstBeyond(f, dir, part, n) != False
    ensures forall k | FirstBeyond(f, dir, part, n) == Elem(k) :: k == m || Behind(dir, k, m)
    decreases Left(dir, Some(n))
  {
    AlongStaysOnPage(f, dir, n);
    var next := Along(dir, n).value;
    assert dir.PreviousSiblingNode? && Last(m) == Last(next) ==> m == Init(m) + [Last(m)] == next;
    if !Hit(f, part, next) {
      FirstHitIsNearest(f, dir, part, next, m);
    }
  }

  /** The search finds `m` exactly when `m` is the nearest hit strictly beyond `n`. */
  lemma SearchExactly(f: Forest, dir: Dir, part: Part, n: Path, m: Path)
    requires IsNode(f, n) && IsNode(f, m) && !part.Context?
    ensures FirstBeyond(f, dir, part, n) == Elem(m) <==>
            && Behind(dir, n, m) && Hit(f, part, m)
            && forall k | IsNode(f, k) && Behind(dir, n, k) && Behind(dir, k, m) :: !Hit(f, part, k)
  {
    if FirstBeyond(f, dir, part, n) != False {
      var k := FirstHitIsHit(f, dir, part, n);
      forall l | IsNode(f, l) && Behind(dir, n, l) && Hit(f, part, l) ensures l == k || Behind(dir, k, l) {
        FirstHitIsNearest(f, dir, part, n, l);
      }
    } else if Behind(dir, n, m) && Hit(f, part, m) {
      FirstHitIsNearest(f, dir, part, n, m);
    }
  }

  /** A tag search ends at the nearest node of that name. */
  lemma TagSearchExactly(f: Forest, dir: Dir, name: string, n: Path, m: Path)
    requires IsNode(f, n) && IsNode(f, m)
    ensures FirstBeyond(f, dir, Tag(name), n) == Elem(m) <==>
            && Behind(dir, n, m) && NodeAt(f, m).nodeName == name
            && forall k | IsNode(f, k) && Behind(dir, n, k) && Behind(dir, k, m) :: NodeAt(f, k).nodeName != name
  {
    SearchExactly(f, dir, Tag(name), n, m);
  }

  /** Any other string ends it at the nearest element that passes. */
  lemma FilterSearchExactly(f: Forest, dir: Dir, test: Path -> bool, n: Path, m: Path)
    requires IsNode(f, n) && IsNode(f, m)
    ensures FirstBeyond(f, dir, Filter(test), n) == Elem(m) <==>
            && Behind(dir, n, m) && IsElement(f, m) && test(m)
            && forall k | IsNode(f, k) && Behind(dir, n, k) && Behind(dir, k, m) :: !(IsElement(f, k) && test(k))
  {
    SearchExactly(f, dir, Filter(test), n, m);
  }

  /** A search for the context tells whether that is an element beyond `n`. */
  lemma ContextSearchExactly(f: Forest, dir: Dir, scope: Path, n: Path)
    requires IsNode(f, n) && IsNode(f, scope)
    ensures FirstBeyond(f, dir, Context(scope), n)
            == if Behind(dir, n, scope) && IsElement(f, scope) then True else False
  {
    if FirstBeyond(f, dir, Context(scope), n) != False {
      var m := FirstHitIsHit(f, dir, Context(scope), n);
    } else if Behind(dir, n, scope) && IsElement(f, scope) {
      FirstHitIsNearest(f, dir, Context(scope), n, scope);
    }
  }

  lemma {:induction false} PreviousElementIsAdjacent(f: Forest, n: Path, m: Path)
    requires IsNode(f, n) && IsNode(f, m)
    ensures PreviousElement(f, n) == Some(m) <==> Related(f, Adjacent, n, m)
    decreases Left(PreviousSiblingNode, Some(n))
  {
    AlongStaysOnPage(f, PreviousSiblingNode, n);
    var p := PreviousSibling(n);
    if p.Some? {
      forall k | IsNode(f, k)
        ensures Behind(PreviousSiblingNode, n, k) <==> k == p.value || Behind(PreviousSiblingNode, p.value, k)
      {
        if Behind(PreviousSiblingNode, n, k) && Last(k) == Last(p.value) {
          assert k == Init(k) + [Last(k)];
        }
      }
      if !IsElement(f, p.value) {
        PreviousElementIsAdjacent(f, p.value, m);
      }
    }
  }

  /** One greedy step, in terms of the relation it searches along. */
  lemma StepFindsRelated(f: Forest, step: Step, n: Path) returns (m: Path)
    requires Attached(f) && IsNode(f, n) && IsElement(f, n) && Selector(f, [step])
    requires NextSlot(f, step.0, step.1, Elem(n)) != False
    ensures IsNode(f, m) && Related(f, step.0, n, m) && Passes(f, step.1, m)
    ensures NextSlot(f, step.0, step.1, Elem(n)) == Found(step.1, m)
    ensures !step.1.Context? ==> IsElement(f, m) && Hit(f, step.1, m)
  {
    assert [step][0] == step;
    match step.0
    case Child =>
      AlongStaysOnPage(f, ParentNode, n);
      m := Init(n);
    case Adjacent =>
      m := PreviousElement(f, n).value;
      PreviousElementIsAdjacent(f, n, m);
    case Descendant =>
      m := FirstHitIsHit(f, ParentNode, step.1, n);
    case Sibling =>
      m := FirstHitIsHit(f, PreviousSiblingNode, step.1, n);
  }

  lemma StepKeepsNarrowable(f: Forest, steps: seq<Step>, s: Slot)
    requires Attached(f) && Selector(f, steps) && Narrowable(f, steps, s) && steps != []
    ensures SlotOnPage(f, s) && Steppable(steps[0].0, steps[0].1, s)
    ensures Narrowable(f, steps[1..], NextSlot(f, steps[0].0, steps[0].1, s)) && Selector(f, steps[1..])
  {
    assert Selector(f, [steps[0]]);
    if s.Elem? && NextSlot(f, steps[0].0, steps[0].1, s) != False {
      var m := StepFindsRelated(f, steps[0], s.node);
    }
  }

  /** Where the entry of one candidate ends up. */
  ghost function Greedy(f: Forest, steps: seq<Step>, s: Slot): Slot
    requires Attached(f) && Selector(f, steps) && Narrowable(f, steps, s)
    decreases |steps|
  {
    if steps == [] then s
    else (
      StepKeepsNarrowable(f, steps, s);
      Greedy(f, steps[1..], NextSlot(f, steps[0].0, steps[0].1, s))
    )
  }

  lemma {:induction false} GreedyOfFalse(f: Forest, steps: seq<Step>)
    requires Attached(f) && Selector(f, steps)
    ensures Greedy(f, steps, False) == False
    decreases |steps|
  {
    if steps != [] {
      StepKeepsNarrowable(f, steps, False);
      GreedyOfFalse(f, steps[1..]);
    }
  }

  /** The last test of the main loop: what stays of an entry. */
  predicate Kept(f: Forest, scope: Path, s: Slot)
    requires IsNode(f, scope) && SlotOnPage(f, s)
  {
    if IsElement(f, scope) then s.True? || (s.Elem? && IsElement(f, s.node) && Behind(ParentNode, s.node, scope))
    else s.Elem? && IsElement(f, s.node)
  }

  /** The candidate survives the whole loop. */
  ghost predicate Finds(f: Forest, scope: Path, steps: seq<Step>, n: Path)
    requires Attached(f) && Selector(f, steps) && IsNode(f, scope) && IsNode(f, n) && IsElement(f, n)
  {
    GreedyOnPage(f, steps, Elem(n));
    Kept(f, scope, Greedy(f, steps, Elem(n)))
  }

  lemma {:induction false} GreedyOnPage(f: Forest, steps: seq<Step>, s: Slot)
    requires Attached(f) && Selector(f, steps) && Narrowable(f, steps, s)
    ensures Narrowable(f, [], Greedy(f, steps, s))
    decreases |steps|
  {
    if steps != [] {
      StepKeepsNarrowable(f, steps, s);
      GreedyOnPage(f, steps[1..], NextSlot(f, steps[0].0, steps[0].1, s));
    }
  }

  // ---- the greedy search against the meaning ----

  /** Whatever the shape of the selector, nothing is kept that does not match. */
  lemma {:induction false} GreedyIsSound(f: Forest, scope: Path, steps: seq<Step>, n: Path)
    requires Attached(f) && Selector(f, steps) && IsNode(f, scope) && IsNode(f, n) && IsElement(f, n)
    requires RunsIn(steps, scope)
    ensures Finds(f, scope, steps, n) ==> Meaning(f, scope, steps, n)
    decreases |steps|
  {
    if steps != [] && Finds(f, scope, steps, n) {
      StepKeepsNarrowable(f, steps, Elem(n));
      GreedyOnPage(f, steps, Elem(n));
      if NextSlot(f, steps[0].0, steps[0].1, Elem(n)) == False {
        GreedyOfFalse(f, steps[1..]);
      }
      assert Selector(f, [steps[0]]);
      var m := StepFindsRelated(f, steps[0], n);
      if !steps[0].1.Context? {
        GreedyIsSound(f, scope, steps[1..], m);
      }
      assert Witness(f, scope, steps, n, m);
    }
  }

  /** After a descendant step only descendant steps may follow, and after a "~" step anything but
      "+": then the node nearest to the candidate is as good as any other. */
  predicate Compatible(first: Combinator, next: Combinator) {
    (first.Descendant? ==> next.Descendant?) && (first.Sibling? ==> !next.Adjacent?)
  }

  predicate Admissible(combs: seq<Combinator>) {
    forall i | 0 <= i < |combs| - 1 :: Compatible(combs[i], combs[i + 1])
  }

  function Combinators(steps: seq<Step>): (r: seq<Combinator>)
    ensures |r| == |steps| && forall i | 0 <= i < |r| :: r[i] == steps[i].0
  {
    seq(|steps|, i requires 0 <= i < |steps| => steps[i].0)
  }


  /** The selector starts with a combinator, as in "> a". */
  predicate EndsInContext(steps: seq<Step>) {
    steps != [] && steps[|steps| - 1].1.Context?
  }

  /** A nearer node on the chain inherits the meaning of the rest from a farther one. */
  lemma NearerIsAsGood(f: Forest, scope: Path, first: Combinator, rest: seq<Step>, near: Path, far: Path)
    requires IsNode(f, scope) && IsNode(f, near) && IsNode(f, far)
    requires (first.Descendant? && Behind(ParentNode, near, far))
          || (first.Sibling? && Behind(PreviousSiblingNode, near, far))
    requires rest != [] ==> Compatible(first, rest[0].0)
    requires Meaning(f, scope, rest, far)
    ensures Meaning(f, scope, rest, near)
  {
    if rest == [] {
      if IsElement(f, scope) && first.Sibling? {
        assert near[..|scope|] == Init(near)[..|scope|] == Init(far)[..|scope|] == far[..|scope|];
      }
      if IsElement(f, scope) && first.Descendant? {
        assert near[..|scope|] == near[..|far|][..|scope|];
      }
    } else {
      var m := MeaningHasWitness(f, scope, rest, far);
      if first.Descendant? || rest[0].0.Descendant? {
        assert near[..|m|] == (if first.Descendant? then near[..|far|][..|m|] else Init(near)[..|m|]);
        assert far[..|m|] == (if first.Descendant? then far[..|m|] else Init(far)[..|m|]);
      }
      assert Witness(f, scope, rest, near, m);
    }
  }

  lemma AdmissibleRest(steps: seq<Step>)
    requires steps != [] && Admissible(Combinators(steps))
    ensures Admissible(Combinators(steps[1..]))
  {
    var combs, rest := Combinators(steps), Combinators(steps[1..]);
    forall i | 0 <= i < |rest| - 1 ensures Compatible(rest[i], rest[i + 1]) {
      assert rest[i] == combs[i + 1] && rest[i + 1] == combs[i + 1 + 1];
    }
  }

  /** On an admissible selector every candidate that matches is kept. */
  lemma {:induction false} GreedyIsComplete(f: Forest, scope: Path, steps: seq<Step>, n: Path)
    requires Attached(f) && Selector(f, steps) && IsNode(f, scope) && IsNode(f, n) && IsElement(f, n)
    requires RunsIn(steps, scope) && (IsElement(f, scope) || !EndsInContext(steps))
    requires Admissible(Combinators(steps))
    ensures Meaning(f, scope, steps, n) ==> Finds(f, scope, steps, n)
    decreases |steps|
  {
    GreedyOnPage(f, steps, Elem(n));
    if steps != [] && Meaning(f, scope, steps, n) {
      var m := MeaningHasWitness(f, scope, steps, n);
      var (comb, part) := steps[0];
      var rest := steps[1..];
      StepKeepsNarrowable(f, steps, Elem(n));
      assert Selector(f, [steps[0]]);
      match comb {
        case Child =>
        case Adjacent => PreviousElementIsAdjacent(f, n, m);
        case Descendant => FirstHitIsNearest(f, ParentNode, part, n, m);
        case Sibling => FirstHitIsNearest(f, PreviousSiblingNode, part, n, m);
      }
      var k := StepFindsRelated(f, steps[0], n);
      if !part.Context? {
        if k != m {
          assert rest != [] ==> Compatible(Combinators(steps)[0], Combinators(steps)[1]);
          NearerIsAsGood(f, scope, comb, rest, k, m);
        }
        AdmissibleRest(steps);
        GreedyIsComplete(f, scope, rest, k);
      }
    }
  }

  /** On an admissible selector the greedy loop keeps exactly the candidates that match; a
      selector that starts with a combinator needs an element context. */
  lemma GreedyIsMeaning(f: Forest, scope: Path, steps: seq<Step>, n: Path)
    requires Attached(f) && Selector(f, steps) && IsNode(f, scope) && IsNode(f, n) && IsElement(f, n)
    requires RunsIn(steps, scope) && (IsElement(f, scope) || !EndsInContext(steps))
    requires Admissible(Combinators(steps))
    ensures Finds(f, scope, steps, n) <==> Meaning(f, scope, steps, n)
  {
    GreedyIsSound(f, scope, steps, n);
    GreedyIsComplete(f, scope, steps, n);
  }

  /** Without one it keeps nothing at all: the `true` it ends with has no nodeType. */
  lemma {:induction false} NothingBelowADocumentContext(f: Forest, scope: Path, steps: seq<Step>, s: Slot)
    requires Attached(f) && Selector(f, steps) && IsNode(f, scope) && !IsElement(f, scope) && EndsInContext(steps)
    requires Narrowable(f, steps, s)
    ensures !Greedy(f, steps, s).Elem?
    decreases |steps|
  {
    StepKeepsNarrowable(f, steps, s);
    var next := NextSlot(f, steps[0].0, steps[0].1, s);
    if |steps| > 1 {
      NothingBelowADocumentContext(f, scope, steps[1..], next);
    } else {
      assert Selector(f, [steps[0]]);
      if s.Elem? && next != False {
        var m := StepFindsRelated(f, steps[0], s.node);
      }
      assert Greedy(f, steps, s) == Greedy(f, [], next);
    }
  }

  // ---- the loop itself ----

  datatype Token = Combining(comb: Combinator) | Compound(part: Part)

  /** The parts, read from the right: a compound without a combinator before it is a descendant
      step, a combinator that comes first relates to the context. */
  function StepsOf(parts: seq<Token>, scope: Path): seq<Step>
    decreases |parts|
  {
    if parts == [] then []
    else match parts[|parts| - 1]
      case Compound(part) => [(Descendant, part)] + StepsOf(parts[..|parts| - 1], scope)
      case Combining(comb) =>
        if |parts| >= 2 && parts[|parts| - 2].Compound?
        then [(comb, parts[|parts| - 2].part)] + StepsOf(parts[..|parts| - 2], scope)
        else [(comb, Context(scope))]
  }

  /** Every compound selects elements, and no combinator follows another. */
  ghost predicate WellFormed(f: Forest, parts: seq<Token>) {
    && (forall i | 0 <= i < |parts| && parts[i].Compound? :: !parts[i].part.Context? && Selects(f, parts[i].part))
    && (forall i | 0 < i < |parts| && parts[i].Combining? :: parts[i - 1].Compound?)
  }

  lemma {:induction false} StepsOfIsSelector(f: Forest, parts: seq<Token>, scope: Path)
    requires WellFormed(f, parts)
    ensures Selector(f, StepsOf(parts, scope)) && RunsIn(StepsOf(parts, scope), scope)
    decreases |parts|
  {
    if parts != [] {
      var k := if parts[|parts| - 1].Compound? then 1 else 2;
      if k <= |parts| {
        StepsOfIsSelector(f, parts[..|parts| - k], scope);
        var steps, rest := StepsOf(parts, scope), StepsOf(parts[..|parts| - k], scope);
        assert steps[1..] == rest;
        assert forall i | 0 < i < |steps| :: steps[i] == rest[i - 1];
      }
    }
  }

  // ---- what a list of parts means, position by position ----

  /** Position `j` stands for a node: that of a compound or, behind the last part, the candidate. */
  predicate HasNode(parts: seq<Token>, j: nat) {
    j == |parts| || (j < |parts| && parts[j].Compound?)
  }

  /** The node at position `j` satisfies its compound, and stands as the selector says to the node
      before it: below it when nothing is written between the two, in the relation written there
      otherwise, and in relation to the context when the selector begins with a combinator. */
  ghost predicate InPlace(f: Forest, scope: Path, parts: seq<Token>, nodes: seq<Path>, j: nat)
    requires IsNode(f, scope) && |nodes| == |parts| + 1 && HasNode(parts, j)
  {
    && IsNode(f, nodes[j])
    && (j < |parts| ==> IsElement(f, nodes[j]) && Passes(f, parts[j].part, nodes[j]))
    && if j == 0 then InScope(f, scope, nodes[0])
       else match parts[j - 1]
         case Compound(_) => IsNode(f, nodes[j - 1]) && Behind(ParentNode, nodes[j], nodes[j - 1])
         case Combining(comb) =>
           if j == 1 then Related(f, comb, nodes[1], scope)
           else IsNode(f, nodes[j - 2]) && Related(f, comb, nodes[j], nodes[j - 2])
  }

  /** `nodes` gives every compound a node (what it gives a combinator does not matter). */
  ghost predicate Assigns(f: Forest, scope: Path, parts: seq<Token>, nodes: seq<Path>)
    requires IsNode(f, scope)
  {
    |nodes| == |parts| + 1 && forall j | 0 <= j <= |parts| && HasNode(parts, j) :: InPlace(f, scope, parts, nodes, j)
  }

  /** The candidate `n` matches the selector: section 8 of Selectors Level 3. */
  ghost predicate Matches(f: Forest, scope: Path, parts: seq<Token>, n: Path)
    requires IsNode(f, scope)
  {
    exists nodes :: Assigns(f, scope, parts, nodes) && nodes[|parts|] == n
  }

  /** Fewer parts, the same nodes. */
  lemma AssignsFewer(f: Forest, scope: Path, parts: seq<Token>, nodes: seq<Path>, k: nat)
    requires IsNode(f, scope) && Assigns(f, scope, parts, nodes) && k < |parts| && parts[k].Compound?
    ensures Assigns(f, scope, parts[..k], nodes[..k + 1])
  {
    forall j | 0 <= j <= k && HasNode(parts[..k], j) ensures InPlace(f, scope, parts[..k], nodes[..k + 1], j) {
      assert InPlace(f, scope, parts, nodes, j);
    }
  }

  /** One more compound, with what is written behind it, and one more node. */
  lemma AssignsMore(f: Forest, scope: Path, parts: seq<Token>, k: nat, nodes: seq<Path>, n: Path)
    requires IsNode(f, scope) && WellFormed(f, parts) && k < |parts| <= k + 2 && parts[k].Compound?
    requires |parts| == k + 2 ==> parts[k + 1].Combining?
    requires Assigns(f, scope, parts[..k], nodes) && IsNode(f, nodes[k]) && IsNode(f, n)
    requires IsElement(f, nodes[k]) && Passes(f, parts[k].part, nodes[k])
    requires if |parts| == k + 1 then Behind(ParentNode, n, nodes[k]) else Related(f, parts[k + 1].comb, n, nodes[k])
    ensures Matches(f, scope, parts, n)
  {
    var more := nodes + seq(|parts| - k, _ => n);
    forall j | 0 <= j <= |parts| && HasNode(parts, j) ensures InPlace(f, scope, parts, more, j) {
      if j <= k {
        assert HasNode(parts[..k], j);
        assert InPlace(f, scope, parts[..k], nodes, j);
      } else {
        assert more[j] == n && more[k] == nodes[k];
      }
    }
    assert more[|parts|] == n;
  }

  /** The steps mean what the list of parts means. */
  lemma {:induction false} MatchesIsMeaning(f: Forest, scope: Path, parts: seq<Token>, n: Path)
    requires WellFormed(f, parts) && IsNode(f, scope) && IsNode(f, n)
    ensures Matches(f, scope, parts, n) <==> Meaning(f, scope, StepsOf(parts, scope), n)
    decreases |parts|
  {
    if parts == [] {
      assert Assigns(f, scope, parts, [n]) <==> InPlace(f, scope, parts, [n], 0);
      if Matches(f, scope, parts, n) {
        var nodes :| Assigns(f, scope, parts, nodes) && nodes[0] == n;
        assert nodes == [n] && InPlace(f, scope, parts, nodes, 0);
      }
    } else if |parts| == 1 && parts[0].Combining? {
      ContextMatches(f, scope, parts, n);
    } else {
      var k := if parts[|parts| - 1].Compound? then |parts| - 1 else |parts| - 2;
      if Matches(f, scope, parts, n) {
        LastMatches(f, scope, parts, k, n);
      }
      if Meaning(f, scope, StepsOf(parts, scope), n) {
        var m := MeaningHasWitness(f, scope, StepsOf(parts, scope), n);
        assert StepsOf(parts, scope)[1..] == StepsOf(parts[..k], scope);
        MatchesIsMeaning(f, scope, parts[..k], m);
        var nodes :| Assigns(f, scope, parts[..k], nodes) && nodes[k] == m;
        AssignsMore(f, scope, parts, k, nodes, n);
      }
    }
  }

  lemma ContextMatches(f: Forest, scope: Path, parts: seq<Token>, n: Path)
    requires |parts| == 1 && parts[0].Combining? && IsNode(f, scope) && IsNode(f, n)
    ensures Matches(f, scope, parts, n) <==> Meaning(f, scope, StepsOf(parts, scope), n)
  {
    var steps := StepsOf(parts, scope);
    assert steps == [(parts[0].comb, Context(scope))];
    if Matches(f, scope, parts, n) {
      var nodes :| Assigns(f, scope, parts, nodes) && nodes[1] == n;
      assert InPlace(f, scope, parts, nodes, 1);
      assert Witness(f, scope, steps, n, scope);
    }
    if Meaning(f, scope, steps, n) {
      var m := MeaningHasWitness(f, scope, steps, n);
      assert InPlace(f, scope, parts, [n, n], 1);
      assert Assigns(f, scope, parts, [n, n]);
    }
  }

  lemma {:induction false} LastMatches(f: Forest, scope: Path, parts: seq<Token>, k: nat, n: Path)
    requires WellFormed(f, parts) && IsNode(f, scope) && IsNode(f, n) && k < |parts| <= k + 2 && parts[k].Compound?
    requires |parts| == k + 2 ==> parts[k + 1].Combining?
    requires Matches(f, scope, parts, n)
    ensures Meaning(f, scope, StepsOf(parts, scope), n)
    decreases |parts|, 0
  {
    var nodes :| Assigns(f, scope, parts, nodes) && nodes[|parts|] == n;
    assert InPlace(f, scope, parts, nodes, |parts|) && InPlace(f, scope, parts, nodes, k);
    AssignsFewer(f, scope, parts, nodes, k);
    assert Matches(f, scope, parts[..k], nodes[k]) by {
      assert nodes[..k + 1][k] == nodes[k];
    }
    MatchesIsMeaning(f, scope, parts[..k], nodes[k]);
    assert StepsOf(parts, scope)[1..] == StepsOf(parts[..k], scope);
    assert Witness(f, scope, StepsOf(parts, scope), n, nodes[k]);
  }

  /** The combinator written, or understood, before position `j`. */
  function CombinatorAt(parts: seq<Token>, j: nat): Combinator
    requires 0 < j <= |parts|
  {
    match parts[j - 1]
    case Compound(_) => Descendant
    case Combining(comb) => comb
  }

  /** The position of the node before the one at `j`, if that is not the context. */
  function Before(parts: seq<Token>, j: nat): int
    requires 0 < j <= |parts|
  {
    if parts[j - 1].Compound? then j - 1 else j - 2
  }

  /** Admissible, as it shows in the parts. */
  predicate AdmissibleParts(parts: seq<Token>) {
    forall j | 0 < j <= |parts| && HasNode(parts, j) && Before(parts, j) > 0 ::
      Compatible(CombinatorAt(parts, j), CombinatorAt(parts, Before(parts, j)))
  }

  lemma AdmissiblePartsFewer(f: Forest, parts: seq<Token>, k: nat)
    requires WellFormed(f, parts) && parts != [] && k == Before(parts, |parts|) > 0
    ensures AdmissibleParts(parts) <==>
            AdmissibleParts(parts[..k]) && Compatible(CombinatorAt(parts, |parts|), CombinatorAt(parts, k))
  {
    var fewer := parts[..k];
    assert HasNode(parts, k) && HasNode(fewer, k) && HasNode(parts, |parts|);
    assert forall j | 0 < j < k :: HasNode(fewer, j) <==> HasNode(parts, j);
    assert forall j | k < j < |parts| :: !HasNode(parts, j);
  }

  lemma AdmissibleFewer(combs: seq<Combinator>)
    requires |combs| > 1
    ensures Admissible(combs) <==> Admissible(combs[1..]) && Compatible(combs[0], combs[1])
  {
    if Admissible(combs[1..]) && Compatible(combs[0], combs[1]) {
      forall i | 0 <= i < |combs| - 1 ensures Compatible(combs[i], combs[i + 1]) {
        if i > 0 {
          assert Compatible(combs[1..][i - 1], combs[1..][i]);
        }
      }
    }
    if Admissible(combs) {
      forall i | 0 <= i < |combs| - 2 ensures Compatible(combs[1..][i], combs[1..][i + 1]) {
        assert combs[1..][i] == combs[i + 1] && combs[1..][i + 1] == combs[i + 1 + 1];
      }
    }
  }

  lemma StepsOfLast(f: Forest, parts: seq<Token>, scope: Path)
    requires WellFormed(f, parts) && parts != []
    ensures StepsOf(parts, scope) != [] && StepsOf(parts, scope)[0].0 == CombinatorAt(parts, |parts|)
    ensures var k := Before(parts, |parts|);
            if k < 0 then |StepsOf(parts, scope)| == 1 && EndsInContext(StepsOf(parts, scope))
            else StepsOf(parts, scope)[1..] == StepsOf(parts[..k], scope) && parts[k].Compound?
  {
  }

  lemma {:induction false} LeadingCombinator(f: Forest, parts: seq<Token>, scope: Path)
    requires WellFormed(f, parts)
    ensures EndsInContext(StepsOf(parts, scope)) <==> parts != [] && parts[0].Combining?
    decreases |parts|
  {
    if parts != [] && Before(parts, |parts|) >= 0 {
      var k := Before(parts, |parts|);
      StepsOfLast(f, parts, scope);
      LeadingCombinator(f, parts[..k], scope);
      if k == 0 {
        assert !StepsOf(parts, scope)[0].1.Context?;
      }
    }
  }

  lemma AdmissibleStepsFewer(f: Forest, parts: seq<Token>, scope: Path, k: nat)
    requires WellFormed(f, parts) && parts != [] && k == Before(parts, |parts|) > 0
    ensures Admissible(Combinators(StepsOf(parts, scope))) <==>
            && Admissible(Combinators(StepsOf(parts[..k], scope)))
            && Compatible(CombinatorAt(parts, |parts|), CombinatorAt(parts, k))
  {
    StepsOfLast(f, parts, scope);
    StepsOfLast(f, parts[..k], scope);
    var combs, fewer := Combinators(StepsOf(parts, scope)), Combinators(StepsOf(parts[..k], scope));
    assert combs[1..] == fewer;
    AdmissibleFewer(combs);
  }

  /** A selector is admissible as it shows in its parts. */
  lemma {:induction false} AdmissiblePartsExactly(f: Forest, parts: seq<Token>, scope: Path)
    requires WellFormed(f, parts)
    ensures AdmissibleParts(parts) <==> Admissible(Combinators(StepsOf(parts, scope)))
    decreases |parts|
  {
    if parts != [] && Before(parts, |parts|) > 0 {
      var k := Before(parts, |parts|);
      AdmissiblePartsExactly(f, parts[..k], scope);
      AdmissiblePartsFewer(f, parts, k);
      AdmissibleStepsFewer(f, parts, scope, k);
    } else if parts != [] {
      StepsOfLast(f, parts, scope);
    }
  }

  /** The candidates a predicate of the greedy search lets through, in their order. */
  ghost function Survivors(f: Forest, scope: Path, steps: seq<Step>, candidates: seq<Path>): seq<Path>
    requires Attached(f) && Selector(f, steps) && IsNode(f, scope)
    requires Candidates(f, candidates)
  {
    if candidates == [] then []
    else (
      var n := candidates[|candidates| - 1];
      Survivors(f, scope, steps, candidates[..|candidates| - 1]) + if Finds(f, scope, steps, n) then [n] else []
    )
  }

  /** The candidates the selector matches, in their order. */
  ghost function Matching(f: Forest, scope: Path, steps: seq<Step>, candidates: seq<Path>): seq<Path>
    requires IsNode(f, scope)
    requires forall n | n in candidates :: IsNode(f, n)
  {
    if candidates == [] then []
    else (
      var n := candidates[|candidates| - 1];
      Matching(f, scope, steps, candidates[..|candidates| - 1]) + if Meaning(f, scope, steps, n) then [n] else []
    )
  }

  lemma {:induction false} SurvivorsAreMatching(f: Forest, scope: Path, steps: seq<Step>, candidates: seq<Path>)
    requires Attached(f) && Selector(f, steps) && IsNode(f, scope)
    requires Candidates(f, candidates)
    requires RunsIn(steps, scope) && (IsElement(f, scope) || !EndsInContext(steps))
    requires Admissible(Combinators(steps))
    ensures Survivors(f, scope, steps, candidates) == Matching(f, scope, steps, candidates)
  {
    if candidates != [] {
      GreedyIsMeaning(f, scope, steps, candidates[|candidates| - 1]);
      SurvivorsAreMatching(f, scope, steps, candidates[..|candidates| - 1]);
    }
  }

  /** The candidates that match the parts, in their order. */
  ghost function Matched(f: Forest, scope: Path, parts: seq<Token>, candidates: seq<Path>): seq<Path>
    requires IsNode(f, scope)
  {
    Keep(candidates, n => !Matches(f, scope, parts, n))
  }

  lemma {:induction false} MatchingIsMatched(f: Forest, scope: Path, parts: seq<Token>, candidates: seq<Path>)
    requires WellFormed(f, parts) && IsNode(f, scope) && Candidates(f, candidates)
    ensures Matching(f, scope, StepsOf(parts, scope), candidates) == Matched(f, scope, parts, candidates)
  {
    if candidates != [] {
      MatchesIsMeaning(f, scope, parts, candidates[|candidates| - 1]);
      MatchingIsMatched(f, scope, parts, candidates[..|candidates| - 1]);
    }
  }

  /** On an admissible selector, in a context it can start from, what survives is what matches. */
  lemma SurvivorsAreMatched(f: Forest, scope: Path, parts: seq<Token>, candidates: seq<Path>)
    requires Attached(f) && WellFormed(f, parts) && IsNode(f, scope) && Candidates(f, candidates)
    requires parts != [] && AdmissibleParts(parts) && (IsElement(f, scope) || parts[0].Compound?)
    ensures Selector(f, StepsOf(parts, scope))
    ensures Survivors(f, scope, StepsOf(parts, scope), candidates) == Matched(f, scope, parts, candidates)
  {
    StepsOfIsSelector(f, parts, scope);
    AdmissiblePartsExactly(f, parts, scope);
    LeadingCombinator(f, parts, scope);
    SurvivorsAreMatching(f, scope, StepsOf(parts, scope), candidates);
    MatchingIsMatched(f, scope, parts, candidates);
  }

  /** The loop over the parts: entry `i` becomes what the greedy search makes of candidate `i`. */
  method NarrowSlots(page: Page, scope: Path, candidates: seq<Path>, parts: seq<Token>, isXML: bool,
                     nested: nat -> (Path -> seq<(Path, nat)>)) returns (slots: seq<Slot>)
    requires page.Valid() && Attached(page.f) && WellFormed(page.f, parts)
    requires Candidates(page.f, candidates)
    modifies page
    ensures page.Valid() && Selector(page.f, StepsOf(parts, scope)) && |slots| == |candidates|
    ensures forall i | 0 <= i < |candidates| :: slots[i] == Greedy(page.f, StepsOf(parts, scope), Elem(candidates[i]))
  {
    var f := page.f;
    ghost var steps := StepsOf(parts, scope);
    StepsOfIsSelector(f, parts, scope);
    var checkSet := new Slot[|candidates|](i requires 0 <= i < |candidates| => Elem(candidates[i]));
    var todo := parts;
    while todo != []
      invariant page.Valid() && WellFormed(f, todo) && Selector(f, StepsOf(todo, scope))
      invariant fresh(checkSet) && checkSet.Length == |candidates|
      invariant forall i | 0 <= i < |candidates| :: Narrowable(f, StepsOf(todo, scope), checkSet[i])
      invariant forall i | 0 <= i < |candidates| ::
                  Greedy(f, StepsOf(todo, scope), checkSet[i]) == Greedy(f, steps, Elem(candidates[i]))
      decreases |todo|
    {
      ghost var was, rest := todo, StepsOf(todo, scope);
      var cur := todo[|todo| - 1];
      todo := todo[..|todo| - 1];
      var comb, pop := Descendant, Context(scope);
      if cur.Compound? {
        pop := cur.part;
      } else {
        comb := cur.comb;
        if todo != [] {
          pop := todo[|todo| - 1].part;
          todo := todo[..|todo| - 1];
        }
      }
      assert todo == was[..|todo|];
      assert rest[0] == (comb, pop) && rest[1..] == StepsOf(todo, scope);
      StepsOfIsSelector(f, todo, scope);
      ghost var before := checkSet[..];
      StepOnAll(f, rest, before);
      page.Step(comb, pop, checkSet, isXML, nested(|todo|));
    }
    slots := checkSet[..];
  }

  ghost predicate Candidates(f: Forest, candidates: seq<Path>) {
    forall n | n in candidates :: IsNode(f, n) && IsElement(f, n)
  }

  /** A step leaves it to the rest of the parts to give the same answer. */
  ghost predicate StepsOn(f: Forest, steps: seq<Step>, s: Slot)
    requires Attached(f) && Selector(f, steps) && steps != [] && Narrowable(f, steps, s)
  {
    && SlotOnPage(f, s) && Steppable(steps[0].0, steps[0].1, s) && Selector(f, steps[1..])
    && Narrowable(f, steps[1..], NextSlot(f, steps[0].0, steps[0].1, s))
    && Greedy(f, steps[1..], NextSlot(f, steps[0].0, steps[0].1, s)) == Greedy(f, steps, s)
  }

  lemma StepOnAll(f: Forest, steps: seq<Step>, slots: seq<Slot>)
    requires Attached(f) && Selector(f, steps) && steps != []
    requires forall i | 0 <= i < |slots| :: Narrowable(f, steps, slots[i])
    ensures forall i | 0 <= i < |slots| :: StepsOn(f, steps, slots[i])
  {
    forall i | 0 <= i < |slots| ensures StepsOn(f, steps, slots[i]) {
      StepKeepsNarrowable(f, steps, slots[i]);
    }
  }

  /** The main loop from the candidates to the results, for a selector of more than one part. */
  method Narrow(page: Page, scope: Path, candidates: seq<Path>, parts: seq<Token>, isXML: bool,
                nested: nat -> (Path -> seq<(Path, nat)>)) returns (results: seq<Path>)
    requires page.Valid() && Attached(page.f) && IsNode(page.f, scope) && WellFormed(page.f, parts)
    requires Candidates(page.f, candidates) && parts != []
    modifies page
    ensures page.Valid() && Selector(page.f, StepsOf(parts, scope))
    ensures results == Survivors(page.f, scope, StepsOf(parts, scope), candidates)
    ensures AdmissibleParts(parts) && (IsElement(page.f, scope) || parts[0].Compound?)
            ==> results == Matched(page.f, scope, parts, candidates)
  {
    var f := page.f;
    ghost var steps := StepsOf(parts, scope);
    StepsOfIsSelector(f, parts, scope);
    var checkSet := NarrowSlots(page, scope, candidates, parts, isXML, nested);
    results := [];
    for i := 0 to |candidates|
      invariant page.Valid()
      invariant results == Survivors(f, scope, steps, candidates[..i])
    {
      assert candidates[..i + 1][..i] == candidates[..i];
      GreedyOnPage(f, steps, Elem(candidates[i]));
      if Kept(f, scope, checkSet[i]) {
        results := results + [candidates[i]];
      }
    }
    assert candidates[..|candidates|] == candidates;
    if AdmissibleParts(parts) && (IsElement(f, scope) || parts[0].Compound?) {
      SurvivorsAreMatched(f, scope, parts, candidates);
    }
  }
}
