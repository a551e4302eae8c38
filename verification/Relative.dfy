/** The four `Expr.relative` functions of Sizzle, which replace each entry of the candidate array
    by the node the next part of the selector is matched against, or by false.

    `dirCheck` and `dirNodeCheck` remember, by marks written into the nodes, where a search along
    one chain has already been; they are proved to give what a search without memory gives. */
module Relative {
  import opened Wrappers
  import opened Dom

  datatype Combinator = Child | Adjacent | Descendant | Sibling  // ">", "+", "" and "~"

  /** A compound selector: a bare tag name (lower-cased, as node names are here), any other
      string (what `Sizzle.filter` answers for one node), or the context node itself. */
  datatype Part = Tag(name: string) | Filter(test: Path -> bool) | Context(node: Path)

  datatype Slot = False | True | Elem(node: Path)

  datatype Dir = ParentNode | PreviousSiblingNode

  function Along(dir: Dir, n: Path): Option<Path> {
    if dir.ParentNode? then Parent(n) else PreviousSibling(n)
  }

  /** How far a chain can still go. */
  function Left(dir: Dir, n: Option<Path>): nat {
    if n.None? || n.value == [] then 0 else 1 + if dir.ParentNode? then |n.value| else Last(n.value)
  }

  predicate OnPage(f: Forest, n: Option<Path>) {
    n.Some? ==> IsNode(f, n.value)
  }

  lemma AlongStaysOnPage(f: Forest, dir: Dir, n: Path)
    requires IsNode(f, n)
    ensures OnPage(f, Along(dir, n)) && Left(dir, Along(dir, n)) < Left(dir, Some(n))
  {
    if |n| > 1 {
      FamilyIsNode(f, n, if Last(n) == 0 then 0 else Last(n) - 1);
    }
  }

  predicate Passes(f: Forest, part: Part, n: Path)
    requires IsNode(f, n)
  {
    match part
    case Tag(name) => NodeAt(f, n).nodeName == name
    case Filter(test) => test(n)
    case Context(node) => n == node
  }

  /** What ends a search: `dirCheck` tests elements only, `dirNodeCheck` any node's name. */
  predicate Hit(f: Forest, part: Part, n: Path)
    requires IsNode(f, n)
  {
    (part.Tag? || IsElement(f, n)) && Passes(f, part, n)
  }

  function Found(part: Part, n: Path): Slot {
    if part.Context? then True else Elem(n)
  }

  /** The search without memory: the first hit at or after `n` on its chain. */
  function FirstHit(f: Forest, dir: Dir, part: Part, n: Option<Path>): (s: Slot)
    requires OnPage(f, n)
    ensures s.Elem? ==> IsNode(f, s.node)
    decreases Left(dir, n)
  {
    if n.None? then False
    else if Hit(f, part, n.value) then Found(part, n.value)
    else (AlongStaysOnPage(f, dir, n.value); FirstHit(f, dir, part, Along(dir, n.value)))
  }

  /** The first hit strictly beyond `n`. */
  function FirstBeyond(f: Forest, dir: Dir, part: Part, n: Path): (s: Slot)
    requires IsNode(f, n)
    ensures s.Elem? ==> IsNode(f, s.node)
  {
    AlongStaysOnPage(f, dir, n);
    FirstHit(f, dir, part, Along(dir, n))
  }

  function PreviousElement(f: Forest, n: Path): (r: Option<Path>)
    requires IsNode(f, n)
    ensures r.Some? ==> IsNode(f, r.value) && IsElement(f, r.value)
    decreases Left(PreviousSiblingNode, Some(n))
  {
    AlongStaysOnPage(f, PreviousSiblingNode, n);
    var p := PreviousSibling(n);
    if p.None? || IsElement(f, p.value) then p else PreviousElement(f, p.value)
  }

  predicate SlotOnPage(f: Forest, s: Slot) {
    s.Elem? ==> IsNode(f, s.node)
  }

  /** Whether the step is defined: the parent of a root (or of `true`) has no name to read, which
      is a TypeError for a tag, and for a filter it leaves a null in the array. */
  predicate Steppable(comb: Combinator, part: Part, s: Slot) {
    comb.Child? && !part.Context? ==> s.False? || (s.Elem? && Parent(s.node).Some?)
  }

  /** What one entry of the candidate array becomes. */
  function NextSlot(f: Forest, comb: Combinator, part: Part, s: Slot): (r: Slot)
    requires SlotOnPage(f, s) && Steppable(comb, part, s)
    ensures SlotOnPage(f, r)
  {
    if !s.Elem? then False
    else (
      AlongStaysOnPage(f, ParentNode, s.node);
      match comb
      case Child =>
        var p := Parent(s.node);
        if p.Some? && Passes(f, part, p.value) then Found(part, p.value) else False
      case Adjacent =>
        var p := PreviousElement(f, s.node);
        if p.Some? && Passes(f, part, p.value) then Found(part, p.value) else False
      case Descendant => FirstBeyond(f, ParentNode, part, s.node)
      case Sibling => FirstBeyond(f, PreviousSiblingNode, part, s.node)
    )
  }

  ghost predicate SetOnPage(f: Forest, slots: seq<Slot>) {
    forall i | 0 <= i < |slots| :: SlotOnPage(f, slots[i])
  }

  /** Every entry of the array made its step; entries that were false stay false. */
  ghost predicate Stepped(f: Forest, comb: Combinator, part: Part, before: seq<Slot>, after: seq<Slot>)
    requires SetOnPage(f, before) && forall i | 0 <= i < |before| :: Steppable(comb, part, before[i])
  {
    |after| == |before| && forall i | 0 <= i < |before| :: after[i] == NextSlot(f, comb, part, before[i])
  }

  /** The marks written into the nodes: `sizcache` and `sizset`. */
  datatype Marks = Marks(sizcache: map<Path, nat>, sizset: map<Path, nat>) {
    predicate Has(doneName: nat, m: Path) {
      m in sizcache && m in sizset && sizcache[m] == doneName
    }
  }

  /** A mark of this pass leads to the entry that holds the answer from the marked node on. */
  ghost predicate MarksSound(f: Forest, dir: Dir, part: Part, doneName: nat, marks: Marks, i: nat, slots: seq<Slot>)
  {
    forall m | marks.Has(doneName, m) ::
      IsNode(f, m) && marks.sizset[m] <= i && marks.sizset[m] < |slots|
      && (marks.sizset[m] < i ==> slots[marks.sizset[m]] == FirstHit(f, dir, part, Some(m)))
  }

  /** The nodes marked for entry `i` lie behind the search, and have the answer of `elem`. */
  ghost predicate TrailSound(f: Forest, dir: Dir, part: Part, doneName: nat, marks: Marks, i: nat, elem: Option<Path>)
    requires OnPage(f, elem)
  {
    forall m | marks.Has(doneName, m) && marks.sizset[m] == i && IsNode(f, m) ::
      Left(dir, elem) < Left(dir, Some(m)) && FirstHit(f, dir, part, Some(m)) == FirstHit(f, dir, part, elem)
  }

  /** `later` kept, at most, the marks that `marks` has under `doneName`. */
  ghost predicate Undisturbed(doneName: nat, marks: Marks, later: Marks) {
    forall m | later.Has(doneName, m) :: marks.Has(doneName, m) && later.sizset[m] == marks.sizset[m]
  }

  /** One step of the search beyond a node that is no hit, whether or not it was marked. */
  lemma TrailGrows(f: Forest, dir: Dir, part: Part, doneName: nat, marks: Marks, i: nat, n: Path, marked: Marks,
                   later: Marks, slots: seq<Slot>)
    requires IsNode(f, n) && i < |slots|
    requires MarksSound(f, dir, part, doneName, marks, i, slots)
    requires TrailSound(f, dir, part, doneName, marks, i, Some(n))
    requires marked == marks || marked == Marks(marks.sizcache[n := doneName], marks.sizset[n := i])
    requires Undisturbed(doneName, marked, later)
    ensures MarksSound(f, dir, part, doneName, later, i, slots)
    ensures forall m | later.Has(doneName, m) && later.sizset[m] == i && IsNode(f, m) ::
              FirstHit(f, dir, part, Some(m)) == FirstHit(f, dir, part, Some(n))
    ensures !Hit(f, part, n) ==>
      (AlongStaysOnPage(f, dir, n); TrailSound(f, dir, part, doneName, later, i, Along(dir, n)))
  {
    AlongStaysOnPage(f, dir, n);
  }

  /** The search for entry `i` is over: its marks now lead to the answer stored there. */
  lemma TrailEnds(f: Forest, dir: Dir, part: Part, doneName: nat, marks: Marks, i: nat, slots: seq<Slot>, found: Slot)
    requires i < |slots| && MarksSound(f, dir, part, doneName, marks, i, slots)
    requires forall m | marks.Has(doneName, m) && marks.sizset[m] == i && IsNode(f, m) ::
               FirstHit(f, dir, part, Some(m)) == found
    ensures Settled(f, dir, part, doneName, marks, i + 1, slots[i := found])
  {
  }

  /** Between two entries every mark belongs to an earlier one. */
  ghost predicate Settled(f: Forest, dir: Dir, part: Part, doneName: nat, marks: Marks, i: nat, slots: seq<Slot>) {
    MarksSound(f, dir, part, doneName, marks, i, slots)
    && forall m | marks.Has(doneName, m) :: marks.sizset[m] < i
  }

  class Page {
    const f: Forest
    var sizcache: map<Path, nat>
    var sizset: map<Path, nat>
    var done: nat

    /** No mark carries a name that is still to be given out. */
    ghost predicate Valid()
      reads this
    {
      forall n | n in sizcache :: n in sizset && sizcache[n] < done
    }

    constructor (forest: Forest)
      ensures Valid() && f == forest
    {
      f := forest;
      sizcache, sizset, done := map[], map[], 0;
    }

    /** `Sizzle.filter( cur, [elem] )`: the answer is the part's; on the way nested selectors may
        mark any nodes under names of their own. */
    method RunFilter(part: Part, n: Path, nested: seq<(Path, nat)>) returns (pass: bool)
      requires Valid() && IsNode(f, n)
      modifies this
      ensures Valid() && done >= old(done)
      ensures pass == Passes(f, part, n)
      ensures forall m | m in sizcache && sizcache[m] < old(done) ::
                m in old(sizcache) && sizcache[m] == old(sizcache[m])
                && m in old(sizset) && sizset[m] == old(sizset[m])
    {
      var k := 0;
      while k < |nested|
        invariant Valid() && done >= old(done)
        invariant forall m | m in sizcache && sizcache[m] < old(done) ::
                    m in old(sizcache) && sizcache[m] == old(sizcache[m])
                    && m in old(sizset) && sizset[m] == old(sizset[m])
      {
        var doneName := done;
        done := done + 1;
        sizcache, sizset := sizcache[nested[k].0 := doneName], sizset[nested[k].0 := nested[k].1];
        k := k + 1;
      }
      pass := Passes(f, part, n);
    }

    /** Whether the search ends at `n`; only a filter disturbs the marks. */
    method TestNode(part: Part, n: Path, nested: seq<(Path, nat)>) returns (hit: bool)
      requires Valid() && IsNode(f, n)
      modifies this
      ensures Valid() && done >= old(done) && hit == Hit(f, part, n)
      ensures forall name: nat | name < old(done) ::
                Undisturbed(name, old(Marks(sizcache, sizset)), Marks(sizcache, sizset))
    {
      if part.Tag? {
        return Passes(f, part, n);
      } else if !IsElement(f, n) {
        return false;
      } else if part.Context? {
        return Passes(f, part, n);
      }
      hit := RunFilter(part, n, nested);
    }

    /** `dirCheck`, and `dirNodeCheck` when the part is a tag.  `nested` is what the filters do
        to the marks while they run. */
    method DirCheck(dir: Dir, part: Part, doneName: nat, checkSet: array<Slot>, isXML: bool,
                    nested: Path -> seq<(Path, nat)>)
      requires Valid() && doneName < done && SetOnPage(f, checkSet[..])
      requires forall m | m in sizcache :: sizcache[m] != doneName
      modifies this, checkSet
      ensures Valid()
      ensures forall i | 0 <= i < checkSet.Length ::
                checkSet[i] == var s := old(checkSet[i]); if s.Elem? then FirstBeyond(f, dir, part, s.node) else False
    {
      var i := 0;
      while i < checkSet.Length
        invariant 0 <= i <= checkSet.Length && Valid() && doneName < done
        invariant Settled(f, dir, part, doneName, Marks(sizcache, sizset), i, checkSet[..])
        invariant forall k | i <= k < checkSet.Length :: checkSet[k] == old(checkSet[k])
        invariant forall k | 0 <= k < i ::
                    var s := old(checkSet[k]);
                    checkSet[k] == if s.Elem? then FirstBeyond(f, dir, part, s.node) else False
      {
        if checkSet[i] != False {
          var found := False;
          if checkSet[i].Elem? {
            found := Search(dir, part, doneName, checkSet[..], i, isXML, nested);
          }
          checkSet[i] := found;
        }
        i := i + 1;
      }
    }

    /** The inner loop: follow the chain of entry `i` up to a mark of this pass or a hit. */
    method Search(dir: Dir, part: Part, doneName: nat, checkSet: seq<Slot>, i: nat, isXML: bool,
                  nested: Path -> seq<(Path, nat)>) returns (found: Slot)
      requires Valid() && doneName < done
      requires i < |checkSet| && checkSet[i].Elem? && IsNode(f, checkSet[i].node)
      requires Settled(f, dir, part, doneName, Marks(sizcache, sizset), i, checkSet)
      modifies this
      ensures Valid() && doneName < done
      ensures found == FirstBeyond(f, dir, part, checkSet[i].node)
      ensures Settled(f, dir, part, doneName, Marks(sizcache, sizset), i + 1, checkSet[i := found])
    {
      AlongStaysOnPage(f, dir, checkSet[i].node);
      var elem := Along(dir, checkSet[i].node);
      ghost var answer := FirstHit(f, dir, part, elem);
      while elem.Some?
        invariant Valid() && doneName < done && OnPage(f, elem)
        invariant FirstHit(f, dir, part, elem) == answer
        invariant MarksSound(f, dir, part, doneName, Marks(sizcache, sizset), i, checkSet)
        invariant TrailSound(f, dir, part, doneName, Marks(sizcache, sizset), i, elem)
        decreases Left(dir, elem)
      {
        var n := elem.value;
        if n in sizcache && sizcache[n] == doneName {
          assert Marks(sizcache, sizset).Has(doneName, n);
          found := checkSet[sizset[n]];
          TrailEnds(f, dir, part, doneName, Marks(sizcache, sizset), i, checkSet, found);
          return;
        }
        ghost var marks := Marks(sizcache, sizset);
        if IsElement(f, n) && !isXML {
          sizcache, sizset := sizcache[n := doneName], sizset[n := i];
        }
        ghost var marked := Marks(sizcache, sizset);
        var pass := TestNode(part, n, nested(n));
        TrailGrows(f, dir, part, doneName, marks, i, n, marked, Marks(sizcache, sizset), checkSet);
        if pass {
          found := Found(part, n);
          TrailEnds(f, dir, part, doneName, Marks(sizcache, sizset), i, checkSet, found);
          return;
        }
        AlongStaysOnPage(f, dir, n);
        elem := Along(dir, n);
      }
      found := False;
      TrailEnds(f, dir, part, doneName, Marks(sizcache, sizset), i, checkSet, found);
    }

    /** `Sizzle.filter( part, checkSet, true )`: entries that fail become false, in place. */
    method FilterInPlace(part: Part, checkSet: array<Slot>, nested: Path -> seq<(Path, nat)>)
      requires Valid() && SetOnPage(f, checkSet[..])
      modifies this, checkSet
      ensures Valid()
      ensures forall i | 0 <= i < checkSet.Length ::
                checkSet[i] == var s := old(checkSet[i]); if s.Elem? && !Passes(f, part, s.node) then False else s
    {
      for i := 0 to checkSet.Length
        invariant Valid()
        invariant forall k | i <= k < checkSet.Length :: checkSet[k] == old(checkSet[k])
        invariant forall k | 0 <= k < i ::
                    checkSet[k] == var s := old(checkSet[k]); if s.Elem? && !Passes(f, part, s.node) then False else s
      {
        if checkSet[i].Elem? {
          var pass := RunFilter(part, checkSet[i].node, nested(checkSet[i].node));
          if !pass {
            checkSet[i] := False;
          }
        }
      }
    }

    /** The "+" step. */
    method AdjacentStep(part: Part, checkSet: array<Slot>, nested: Path -> seq<(Path, nat)>)
      requires Valid() && SetOnPage(f, checkSet[..])
      modifies this, checkSet
      ensures Valid() && Stepped(f, Adjacent, part, old(checkSet[..]), checkSet[..])
    {
      ghost var before := checkSet[..];
      for i := 0 to checkSet.Length
        invariant Valid()
        invariant forall k | i <= k < checkSet.Length :: checkSet[k] == before[k]
        invariant forall k | 0 <= k < i :: checkSet[k] == AdjacentSlot(f, part, before[k])
      {
        if checkSet[i] == True {
          checkSet[i] := False;
        } else if checkSet[i].Elem? {
          ghost var start := checkSet[i].node;
          AlongStaysOnPage(f, PreviousSiblingNode, start);
          var elem := PreviousSibling(checkSet[i].node);
          while elem.Some? && !IsElement(f, elem.value)
            invariant OnPage(f, elem)
            invariant PreviousElement(f, start)
                      == if elem.None? || IsElement(f, elem.value) then elem else PreviousElement(f, elem.value)
            decreases Left(PreviousSiblingNode, elem)
            modifies {}
          {
            AlongStaysOnPage(f, PreviousSiblingNode, elem.value);
            elem := PreviousSibling(elem.value);
          }
          if part.Filter? {
            checkSet[i] := if elem.Some? then Elem(elem.value) else False;
          } else {
            checkSet[i] := if elem.Some? && Passes(f, part, elem.value) then Found(part, elem.value) else False;
          }
        }
      }
      if part.Filter? {
        FilterInPlace(part, checkSet, nested);
      }
    }

    /** The ">" step. */
    method ChildStep(part: Part, checkSet: array<Slot>, nested: Path -> seq<(Path, nat)>)
      requires Valid() && SetOnPage(f, checkSet[..])
      requires forall i | 0 <= i < checkSet.Length :: Steppable(Child, part, checkSet[i])
      modifies this, checkSet
      ensures Valid() && Stepped(f, Child, part, old(checkSet[..]), checkSet[..])
    {
      ghost var before := checkSet[..];
      for i := 0 to checkSet.Length
        invariant Valid()
        invariant forall k | i <= k < checkSet.Length :: checkSet[k] == before[k]
        invariant forall k | 0 <= k < i :: checkSet[k] == ChildSlot(f, part, before[k])
      {
        if checkSet[i] == True {
          checkSet[i] := False;
        } else if checkSet[i].Elem? {
          AlongStaysOnPage(f, ParentNode, checkSet[i].node);
          var parent := Parent(checkSet[i].node);
          if part.Filter? {
            checkSet[i] := Elem(parent.value);
          } else {
            checkSet[i] := if parent.Some? && Passes(f, part, parent.value) then Found(part, parent.value) else False;
          }
        }
      }
      if part.Filter? {
        FilterInPlace(part, checkSet, nested);
      }
    }

    /** `Expr.relative[ cur ]( checkSet, pop, contextXML )`: whatever the marks of earlier passes,
        every entry makes the step it would make alone. */
    method Step(comb: Combinator, part: Part, checkSet: array<Slot>, isXML: bool, nested: Path -> seq<(Path, nat)>)
      requires Valid() && SetOnPage(f, checkSet[..])
      requires forall i | 0 <= i < checkSet.Length :: Steppable(comb, part, checkSet[i])
      modifies this, checkSet
      ensures Valid() && Stepped(f, comb, part, old(checkSet[..]), checkSet[..])
    {
      match comb
      case Child => ChildStep(part, checkSet, nested);
      case Adjacent => AdjacentStep(part, checkSet, nested);
      case Descendant =>
        var doneName := done;
        done := done + 1;
        DirCheck(ParentNode, part, doneName, checkSet, isXML, nested);
      case Sibling =>
        var doneName := done;
        done := done + 1;
        DirCheck(PreviousSiblingNode, part, doneName, checkSet, isXML, nested);
    }
  }

  /** An entry after the loop of "+", before its filter runs. */
  ghost function AdjacentSlot(f: Forest, part: Part, s: Slot): (r: Slot)
    requires SlotOnPage(f, s)
    ensures SlotOnPage(f, r)
  {
    if s.Elem? && part.Filter? then
      (var p := PreviousElement(f, s.node); if p.Some? then Elem(p.value) else False)
    else NextSlot(f, Adjacent, part, s)
  }

  /** An entry after the loop of ">", before its filter runs. */
  ghost function ChildSlot(f: Forest, part: Part, s: Slot): (r: Slot)
    requires SlotOnPage(f, s) && Steppable(Child, part, s)
    ensures SlotOnPage(f, r)
  {
    if s.Elem? && part.Filter? then (AlongStaysOnPage(f, ParentNode, s.node); Elem(Parent(s.node).value))
    else NextSlot(f, Child, part, s)
  }
}
