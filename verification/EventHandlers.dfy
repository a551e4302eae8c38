/** `jQuery.event.add` and `jQuery.event.remove` on one element, without special events.

    The handler lists are JavaScript arrays that the remover edits in place while an inner call
    of itself looks at, and may unlink, the same array; so arrays have an identity here: `events`
    maps a type to an array, and `arrays` holds what each array contains. */
module EventHandlers {
  import opened Wrappers
  import opened Sequences

  /** A bound handler: the guid of the function, the guid it is removed by (the same, unless the
      handler object brought its own), and its namespaces. */
  datatype HandleObj = HandleObj(handler: nat, guid: nat, namespaces: multiset<string>)

  /** One blank-separated piece of a types string, such as "click.a.b"; the type is empty when
      the piece starts with a dot.  A types string is the list of its pieces, and the empty list
      when it is missing or empty. */
  datatype Token = Token(kind: string, namespaces: multiset<string>)

  /** The namespace test of the source: the sorted namespaces asked for occur, in order, among
      the sorted namespaces of the handler. */
  predicate Matches(token: Token, h: HandleObj) {
    token.namespaces <= h.namespaces
  }

  /** The call with no types, or with types that start with a dot, is about every type. */
  predicate AllTypes(types: seq<Token>) {
    types == [] || types[0].kind == ""
  }

  function FirstNamespaces(types: seq<Token>): multiset<string> {
    if types == [] then multiset{} else types[0].namespaces
  }

  function Rest(types: seq<Token>): seq<Token> {
    if types == [] then [] else types[1..]
  }

  /** Some piece names the type and the handler's namespaces. */
  predicate Named(types: seq<Token>, kind: string, h: HandleObj) {
    exists i :: 0 <= i < |types| && types[i].kind == kind && Matches(types[i], h)
  }

  /** What `remove` is to remove.  When the call is about every type, its handler is ignored. */
  predicate Doomed(types: seq<Token>, handler: Option<nat>, kind: string, h: HandleObj) {
    if AllTypes(types) then FirstNamespaces(types) <= h.namespaces || Named(Rest(types), kind, h)
    else Named(types, kind, h) && (handler.Some? ==> handler.value == h.guid)
  }

  /** The bindings `add` appends for one type. */
  function Added(types: seq<Token>, kind: string, handler: nat, guid: nat): seq<HandleObj> {
    if types == [] then []
    else
      var front, last := Added(types[..|types| - 1], kind, handler, guid), types[|types| - 1];
      if last.kind == kind then front + [HandleObj(handler, guid, last.namespaces)] else front
  }

  /** They carry the guid they are to be removed by, and the namespaces of their piece. */
  lemma {:induction false} AddedExactly(types: seq<Token>, kind: string, handler: nat, guid: nat, h: HandleObj)
    ensures h in Added(types, kind, handler, guid) <==>
            && h.handler == handler && h.guid == guid
            && exists i :: 0 <= i < |types| && types[i] == Token(kind, h.namespaces)
  {
    if types != [] {
      var front, last := types[..|types| - 1], types[|types| - 1];
      AddedExactly(front, kind, handler, guid, h);
      assert types == front + [last];
      assert forall token :: token in types <==> token in front || token == last;
      assert (exists i :: 0 <= i < |types| && types[i] == Token(kind, h.namespaces)) <==>
             Token(kind, h.namespaces) in types;
    }
  }

  lemma {:induction false} AddedConcat(first: seq<Token>, second: seq<Token>, kind: string, handler: nat, guid: nat)
    ensures Added(first + second, kind, handler, guid)
            == Added(first, kind, handler, guid) + Added(second, kind, handler, guid)
  {
    if second == [] {
      assert first + second == first;
    } else {
      var n := |second| - 1;
      AddedConcat(first, second[..n], kind, handler, guid);
      assert (first + second)[..|first| + n] == first + second[..n];
    }
  }

  /** `remove` by the guid that was bound takes out what `add` put in, and what was there before as
      far as it is bound under the same guid; by any other guid it leaves what was put in. */
  lemma AddThenRemove(types: seq<Token>, kind: string, handler: nat, guid: nat, other: nat, before: seq<HandleObj>)
    requires !AllTypes(types) && other != guid
    ensures Keep(before + Added(types, kind, handler, guid), DoomedAt(types, Some(guid), kind))
            == Keep(before, DoomedAt(types, Some(guid), kind))
    ensures Keep(before + Added(types, kind, handler, guid), DoomedAt(types, Some(other), kind))
            == Keep(before, DoomedAt(types, Some(other), kind)) + Added(types, kind, handler, guid)
    ensures (forall h | h in before :: h.guid != guid)
            ==> Keep(before + Added(types, kind, handler, guid), DoomedAt(types, Some(guid), kind)) == before
  {
    var added := Added(types, kind, handler, guid);
    var mine, others := DoomedAt(types, Some(guid), kind), DoomedAt(types, Some(other), kind);
    forall h | h in added ensures mine(h) && !others(h) {
      AddedExactly(types, kind, handler, guid, h);
    }
    KeepConcat(before, added, mine);
    KeepConcat(before, added, others);
    KeepSame(added, mine, _ => true);
    KeepSame(added, others, _ => false);
    KeepNone(added);
    KeepAll(added, _ => false);
    if forall h | h in before :: h.guid != guid {
      KeepSame(before, mine, _ => false);
      KeepAll(before, _ => false);
    }
  }

  lemma {:induction false} KeepNone(items: seq<HandleObj>)
    ensures Keep(items, _ => true) == []
  {
    if items != [] {
      KeepNone(items[..|items| - 1]);
    }
  }

  /** A binding stays if it is removed by another guid, if no piece names its type, or if it lacks
      a namespace of every piece that does. */
  lemma RemoveSpares(types: seq<Token>, handler: Option<nat>, kind: string, items: seq<HandleObj>, h: HandleObj)
    requires !AllTypes(types) && h in items
    requires (handler.Some? && handler.value != h.guid)
             || forall i | 0 <= i < |types| && types[i].kind == kind ::
                  exists namespace :: types[i].namespaces[namespace] > h.namespaces[namespace]
    ensures h in Keep(items, DoomedAt(types, handler, kind))
  {
    KeepMembers(items, DoomedAt(types, handler, kind), h);
  }

  /** Without types everything goes, and with one piece of namespaces alone what has them all;
      the handler does not matter. */
  lemma UnbindRemoves(types: seq<Token>, handler: Option<nat>, kind: string, items: seq<HandleObj>, h: HandleObj)
    requires |types| <= 1 && AllTypes(types)
    ensures types == [] ==> h !in Keep(items, DoomedAt(types, handler, kind))
    ensures types != [] ==>
              (h in Keep(items, DoomedAt(types, handler, kind))
               <==> h in items && exists namespace :: types[0].namespaces[namespace] > h.namespaces[namespace])
  {
    KeepMembers(items, DoomedAt(types, handler, kind), h);
  }

  // ---- the namespace test ----

  ghost predicate TotalOrder(below: (string, string) -> bool) {
    && (forall a, b :: below(a, b) || below(b, a))
    && (forall a, b :: below(a, b) && below(b, a) ==> a == b)
    && (forall a, b, c :: below(a, b) && below(b, c) ==> below(a, c))
  }

  predicate Sorted(names: seq<string>, below: (string, string) -> bool) {
    forall i, j | 0 <= i < j < |names| :: below(names[i], names[j])
  }

  /** The regular expression built from `wanted`, joined by "anything between two dots", finds a
      match in `names` joined by dots. */
  predicate OccursIn(wanted: seq<string>, names: seq<string>) {
    wanted == []
    || (names != [] && ((wanted[0] == names[0] && OccursIn(wanted[1..], names[1..])) || OccursIn(wanted, names[1..])))
  }

  lemma SameFirst(wanted: seq<string>, names: seq<string>)
    requires wanted != [] && names != [] && wanted[0] == names[0]
    ensures multiset(wanted) <= multiset(names) <==> multiset(wanted[1..]) <= multiset(names[1..])
  {
    var first := wanted[0];
    assert wanted == [first] + wanted[1..] && names == [first] + names[1..];
    assert multiset(wanted) == multiset{first} + multiset(wanted[1..]);
    assert multiset(names) == multiset{first} + multiset(names[1..]);
    if multiset(wanted) <= multiset(names) {
      forall name ensures multiset(wanted[1..])[name] <= multiset(names[1..])[name] {
        assert multiset(wanted)[name] <= multiset(names)[name];
      }
    }
  }

  lemma OtherFirst(wanted: seq<string>, names: seq<string>, below: (string, string) -> bool)
    requires TotalOrder(below) && Sorted(wanted, below) && Sorted(names, below)
    requires wanted != [] && names != [] && wanted[0] != names[0]
    ensures multiset(wanted) <= multiset(names) <==> multiset(wanted) <= multiset(names[1..])
  {
    var w, n := wanted[0], names[0];
    assert names == [n] + names[1..];
    if multiset(wanted) <= multiset(names) {
      assert w in multiset(wanted);
      assert w in multiset(names);
      var i :| 0 < i < |names| && names[i] == w;
      assert below(n, w);
      assert n !in wanted;
    }
  }

  /** On sorted names that is whether none is missing. */
  lemma {:induction false} SortedOccurs(wanted: seq<string>, names: seq<string>, below: (string, string) -> bool)
    requires TotalOrder(below) && Sorted(wanted, below) && Sorted(names, below)
    ensures OccursIn(wanted, names) <==> multiset(wanted) <= multiset(names)
    decreases |names|
  {
    if wanted != [] && names == [] {
      assert wanted[0] in multiset(wanted);
    } else if wanted != [] {
      SortedOccurs(wanted, names[1..], below);
      if wanted[0] == names[0] {
        SortedOccurs(wanted[1..], names[1..], below);
        SameFirst(wanted, names);
        assert wanted == [wanted[0]] + wanted[1..];
      } else {
        OtherFirst(wanted, names, below);
      }
    }
  }

  lemma MatchesIsOccursIn(token: Token, h: HandleObj, wanted: seq<string>, names: seq<string>,
                          below: (string, string) -> bool)
    requires TotalOrder(below) && Sorted(wanted, below) && Sorted(names, below)
    requires token.namespaces == multiset(wanted) && h.namespaces == multiset(names)
    ensures Matches(token, h) <==> OccursIn(wanted, names)
  {
    SortedOccurs(wanted, names, below);
  }

  /** The same as a test for `Keep`. */
  function DoomedAt(types: seq<Token>, handler: Option<nat>, kind: string): HandleObj -> bool {
    (h: HandleObj) => Doomed(types, handler, kind, h)
  }

  function OneDoomed(token: Token, handler: Option<nat>): HandleObj -> bool {
    (h: HandleObj) => Matches(token, h) && (handler.Some? ==> handler.value == h.guid)
  }

  /** Splicing at `j` while walking: what was looked at is filtered, the rest is as it was. */
  lemma KeepStep(items: seq<HandleObj>, i: nat, p: HandleObj -> bool)
    requires i < |items|
    ensures Keep(items[..i + 1], p) == Keep(items[..i], p) + if p(items[i]) then [] else [items[i]]
    ensures (Keep(items[..i], p) + items[i..])[|Keep(items[..i], p)|] == items[i]
    ensures (Keep(items[..i], p) + items[i..])[|Keep(items[..i], p)| + 1..] == items[i + 1..]
    ensures (Keep(items[..i], p) + items[i..])[..|Keep(items[..i], p)|] == Keep(items[..i], p)
  {
    assert items[..i + 1][..i] == items[..i];
  }

  /** `elemData.events`, the arrays, and the types for which the browser calls the element's
      handle. */
  datatype Table = Table(events: map<string, nat>, arrays: map<nat, seq<HandleObj>>, next: nat, native: set<string>)
  {
    predicate Linked() {
      && (forall t | t in events :: events[t] in arrays)
      && (forall id | id in arrays :: id < next)
      && (forall t, u | t in events && u in events && t != u :: events[t] != events[u])
    }

    /** A type is there exactly when something is bound to it, and exactly when the browser
        listens for it. */
    predicate Valid() {
      && Linked()
      && (forall t | t in events :: arrays[events[t]] != [])
      && native == events.Keys
    }

    /** What is bound to a type, in order. */
    function Bound(t: string): seq<HandleObj>
      requires Linked()
    {
      if t in events then arrays[events[t]] else []
    }

    /** The array of one type holds something else. */
    function Edit(t: string, items: seq<HandleObj>): Table
      requires t in events
    {
      this.(arrays := arrays[events[t] := items])
    }

    function Unlink(t: string): Table {
      this.(events := events - {t}, native := native - {t})
    }

    /** The array of one type is edited, and the type is unlinked if nothing is left. */
    function Shrink(t: string, items: seq<HandleObj>): Table
      requires t in events
    {
      if items == [] then Edit(t, items).Unlink(t) else Edit(t, items)
    }
  }

  lemma ShrinkBound(x: Table, t: string, items: seq<HandleObj>)
    requires x.Valid() && t in x.events
    ensures x.Shrink(t, items).Valid()
    ensures forall u :: x.Shrink(t, items).Bound(u) == if u == t then items else x.Bound(u)
  {
  }

  lemma UpdateTwice(m: map<nat, seq<HandleObj>>, id: nat, a: seq<HandleObj>, b: seq<HandleObj>)
    ensures m[id := a][id := b] == m[id := b]
  {
  }

  lemma ShrinkTwice(x: Table, t: string, a: seq<HandleObj>, b: seq<HandleObj>)
    requires x.Valid() && t in x.events && a != []
    ensures x.Shrink(t, a).Valid() && t in x.Shrink(t, a).events
    ensures x.Shrink(t, a).Shrink(t, b) == x.Shrink(t, b)
  {
    ShrinkBound(x, t, a);
    UpdateTwice(x.arrays, x.events[t], a, b);
  }

  /** A walk over `all` that splices as it goes has looked at `i` items and stands at `j`. */
  predicate Walked(all: seq<HandleObj>, i: nat, p: HandleObj -> bool, cur: seq<HandleObj>, j: nat) {
    i <= |all| && cur == Keep(all[..i], p) + all[i..] && j == |Keep(all[..i], p)|
  }

  function Spliced(items: seq<HandleObj>, j: nat): seq<HandleObj>
    requires j < |items|
  {
    items[..j] + items[j + 1..]
  }

  lemma WalkStart(all: seq<HandleObj>, p: HandleObj -> bool)
    ensures Walked(all, 0, p, all, 0)
  {
    assert Keep(all[..0], p) + all[0..] == all;
  }

  /** Splicing out, or keeping, the next item. */
  lemma WalkStep(all: seq<HandleObj>, i: nat, p: HandleObj -> bool, cur: seq<HandleObj>, j: nat)
    requires Walked(all, i, p, cur, j) && j < |cur|
    ensures i < |all| && cur[j] == all[i]
    ensures if p(cur[j]) then Walked(all, i + 1, p, Spliced(cur, j), j) else Walked(all, i + 1, p, cur, j + 1)
  {
    assert i < |all|;
    KeepStep(all, i, p);
    assert all[i..] == [all[i]] + all[i + 1..];
  }

  lemma WalkEnd(all: seq<HandleObj>, i: nat, p: HandleObj -> bool, cur: seq<HandleObj>, j: nat)
    requires Walked(all, i, p, cur, j) && j >= |cur|
    ensures cur == Keep(all, p)
  {
    assert all[..i] == all;
  }

  lemma EditSame(x: Table, t: string)
    requires x.Linked() && t in x.events
    ensures x.Edit(t, x.Bound(t)) == x
  {
    assert x.arrays[x.events[t] := x.Bound(t)] == x.arrays;
  }

  /** One piece of an `add`. */
  function Bind(x: Table, t: string, h: HandleObj): Table
    requires x.Linked()
  {
    var y := if t in x.events then x
             else Table(x.events[t := x.next], x.arrays[x.next := []], x.next + 1, x.native + {t});
    y.Edit(t, y.arrays[y.events[t]] + [h])
  }

  lemma BindBound(x: Table, t: string, h: HandleObj)
    requires x.Valid()
    ensures Bind(x, t, h).Valid()
    ensures forall u :: Bind(x, t, h).Bound(u) == if u == t then x.Bound(u) + [h] else x.Bound(u)
  {
  }

  function BindAll(x: Table, types: seq<Token>, handler: nat, guid: nat): (r: Table)
    requires x.Valid()
    ensures r.Valid()
  {
    if types == [] then x
    else
      var y, last := BindAll(x, types[..|types| - 1], handler, guid), types[|types| - 1];
      BindBound(y, last.kind, HandleObj(handler, guid, last.namespaces));
      Bind(y, last.kind, HandleObj(handler, guid, last.namespaces))
  }

  lemma {:induction false} BindAllBound(x: Table, types: seq<Token>, handler: nat, guid: nat, t: string)
    requires x.Valid()
    ensures BindAll(x, types, handler, guid).Bound(t) == x.Bound(t) + Added(types, t, handler, guid)
  {
    if types != [] {
      var last := types[|types| - 1];
      BindAllBound(x, types[..|types| - 1], handler, guid, t);
      BindBound(BindAll(x, types[..|types| - 1], handler, guid), last.kind, HandleObj(handler, guid, last.namespaces));
    }
  }

  class Element {
    var events: map<string, nat>
    var arrays: map<nat, seq<HandleObj>>
    var nextArray: nat
    var native: set<string>
    /** Whether `elemData.events` and `elemData.handle` are there. */
    var hasEvents: bool
    /** The other private data of the element, and whether it has a private data object at all. */
    var others: set<string>
    var hasPrivate: bool

    ghost function Value(): Table
      reads this
    {
      Table(events, arrays, nextArray, native)
    }

    ghost predicate Valid()
      reads this
    {
      Value().Valid() && (events != map[] ==> hasEvents) && (hasEvents || others != {} ==> hasPrivate)
    }

    constructor ()
      ensures Valid() && events == map[]
    {
      events, arrays, nextArray, native := map[], map[], 0, {};
      hasEvents, others, hasPrivate := false, {}, false;
    }

    /** One turn of the loop of `add`. */
    method BindOne(eventName: string, handleObj: HandleObj)
      requires Value().Valid()
      modifies this`events, this`arrays, this`nextArray, this`native
      ensures Value() == Bind(old(Value()), eventName, handleObj)
    {
      if eventName !in events {
        events, arrays := events[eventName := nextArray], arrays[nextArray := []];
        nextArray := nextArray + 1;
        native := native + {eventName};
      }
      var handlers := events[eventName];
      arrays := arrays[handlers := arrays[handlers] + [handleObj]];
    }

    /** `add`; `guid` is the handler object's own guid or else that of the function. */
    method Add(types: seq<Token>, handler: nat, guid: nat)
      requires Valid()
      modifies this
      ensures Valid() && others == old(others)
      ensures forall t :: Value().Bound(t) == old(Value()).Bound(t) + Added(types, t, handler, guid)
    {
      hasPrivate := true;
      hasEvents := true;
      ghost var x := Value();
      for i := 0 to |types|
        invariant hasPrivate && hasEvents && others == old(others)
        invariant Value() == BindAll(x, types[..i], handler, guid)
      {
        assert types[..i + 1][..i] == types[..i];
        BindOne(types[i].kind, HandleObj(handler, guid, types[i].namespaces));
      }
      assert types[..|types|] == types;
      forall t ensures Value().Bound(t) == x.Bound(t) + Added(types, t, handler, guid) {
        BindAllBound(x, types, handler, guid, t);
      }
    }

    /** The last lines of `remove`. */
    method DropEmpty()
      modifies this`hasEvents, this`hasPrivate
      ensures hasEvents == (old(hasEvents) && events != map[])
      ensures hasPrivate == if events == map[] then others != {} else old(hasPrivate)
    {
      if events == map[] {
        hasEvents := false;
        hasPrivate := others != {};
      }
    }

    /** The recursive call `remove( elem, origType, handleObj.handler, j )` when `origType` names a
        type: it removes no binding, but unlinks the type when the binding at `pos` is the only one
        left. */
    method RemoveAt(token: Token, handler: nat, pos: nat)
      requires Value().Linked() && token.kind in events && pos < |arrays[events[token.kind]]|
      modifies this`events, this`native, this`hasEvents, this`hasPrivate
      ensures Value() == if |old(Value().Bound(token.kind))| == 1 then old(Value()).Unlink(token.kind) else old(Value())
      ensures hasEvents == (old(hasEvents) && events != map[])
      ensures hasPrivate == if events == map[] then others != {} else old(hasPrivate)
    {
      var eventType := events[token.kind];
      var j := pos;
      while j < |arrays[eventType]|
        invariant j <= |arrays[eventType]|
      {
        if handler == arrays[eventType][j].guid {
          break;
        }
        j := j + 1;
      }
      if |arrays[eventType]| == 0 || |arrays[eventType]| == 1 {
        native := native - {token.kind};
        events := events - {token.kind};
      }
      DropEmpty();
    }

    /** `eventType.splice( j, 1 )`. */
    method Splice(eventType: nat, j: nat)
      requires eventType in arrays && j < |arrays[eventType]|
      modifies this`arrays
      ensures arrays == old(arrays)[eventType := Spliced(old(arrays)[eventType], j)]
    {
      arrays := arrays[eventType := arrays[eventType][..j] + arrays[eventType][j + 1..]];
    }

    /** The branch for a given handler. */
    method RemoveHandler(token: Token, handler: nat)
      requires Value().Valid() && token.kind in events
      modifies this`events, this`native, this`arrays
      ensures Value() == ShrinkOne(old(Value()), token, Some(handler))
    {
      ghost var x := Value();
      var eventType := events[token.kind];
      SpliceMatching(eventType, token, handler);
      assert Value() == x.Edit(token.kind, Keep(x.Bound(token.kind), OneDoomed(token, Some(handler))));
      if |arrays[eventType]| == 0 {
        native := native - {token.kind};
        events := events - {token.kind};
      }
    }

    /** The loop of that branch, on one array. */
    method SpliceMatching(eventType: nat, token: Token, handler: nat)
      requires eventType in arrays
      modifies this`arrays
      ensures arrays == old(arrays)[eventType := Keep(old(arrays)[eventType], OneDoomed(token, Some(handler)))]
    {
      ghost var all, p, i := arrays[eventType], OneDoomed(token, Some(handler)), 0;
      WalkStart(all, p);
      var j: nat := 0;
      assert arrays == old(arrays)[eventType := all];
      while j < |arrays[eventType]|
        invariant eventType in arrays && Walked(all, i, p, arrays[eventType], j)
        invariant arrays == old(arrays)[eventType := arrays[eventType]]
        decreases |all| - i
      {
        WalkStep(all, i, p, arrays[eventType], j);
        j := SpliceOrPass(eventType, j, token, handler);
        i := i + 1;
      }
      WalkEnd(all, i, p, arrays[eventType], j);
    }

    /** One turn of that loop. */
    method SpliceOrPass(eventType: nat, j: nat, token: Token, handler: nat) returns (next: nat)
      requires eventType in arrays && j < |arrays[eventType]|
      modifies this`arrays
      ensures var items := old(arrays)[eventType];
              if OneDoomed(token, Some(handler))(items[j])
              then next == j && arrays == old(arrays)[eventType := Spliced(items, j)]
              else next == j + 1 && arrays == old(arrays)
    {
      var handleObj := arrays[eventType][j];
      next := j + 1;
      if handler == handleObj.guid && Matches(token, handleObj) {
        Splice(eventType, j);
        next := next - 1;
      }
    }

    /** The inner call, then the splice on the array that the inner call may have unlinked. */
    method RemoveAndSplice(token: Token, handler: nat, j: nat)
      requires Value().Valid() && token.kind in events && j < |Value().Bound(token.kind)|
      modifies this`events, this`native, this`arrays, this`hasEvents, this`hasPrivate
      ensures Value() == old(Value()).Shrink(token.kind, Spliced(old(Value()).Bound(token.kind), j))
      ensures hasEvents == (old(hasEvents) && events != map[])
      ensures hasPrivate == if events == map[] then others != {} else old(hasPrivate)
    {
      var eventType := events[token.kind];
      RemoveAt(token, handler, j);
      Splice(eventType, j);
    }

    /** The branch without a handler, which calls `remove` for every binding it splices out. */
    method RemoveEvery(token: Token, order: seq<string>, depth: nat) returns (returned: bool)
      requires Valid() && token.kind in events && "" in order
      modifies this`events, this`native, this`arrays, this`hasEvents, this`hasPrivate
      ensures Valid() && (returned <==> !Recurses(old(Value()), token, None))
      ensures returned ==> Value() == ShrinkOne(old(Value()), token, None)
      ensures returned ==> hasEvents == (events != map[])
      ensures returned ==> hasPrivate == if events == map[] then others != {} else old(hasPrivate)
      decreases depth, 3
    {
      if token.kind == "" {
        returned := RemoveEveryEmpty(token, order, depth);
      } else {
        RemoveEveryNamed(token);
        returned := true;
      }
    }

    /** Its loop for a piece that names a type. */
    method RemoveEveryNamed(token: Token)
      requires Valid() && token.kind in events
      modifies this`events, this`native, this`arrays, this`hasEvents, this`hasPrivate
      ensures Value() == ShrinkOne(old(Value()), token, None)
      ensures hasEvents == (events != map[])
      ensures hasPrivate == if events == map[] then others != {} else old(hasPrivate)
    {
      ghost var x, all, p, i := Value(), Value().Bound(token.kind), OneDoomed(token, None), 0;
      var eventType := events[token.kind];
      EditSame(x, token.kind);
      WalkStart(all, p);
      var j: nat := 0;
      while j < |arrays[eventType]|
        invariant eventType in arrays && Walked(all, i, p, arrays[eventType], j)
        invariant Value() == x.Shrink(token.kind, arrays[eventType])
        invariant hasEvents == (events != map[])
        invariant hasPrivate == if events == map[] then others != {} else old(hasPrivate)
        decreases |all| - i
      {
        WalkStep(all, i, p, arrays[eventType], j);
        j := RemoveOrPass(x, token, eventType, j);
        i := i + 1;
      }
      WalkEnd(all, i, p, arrays[eventType], j);
    }

    /** One turn of that loop; the table has shrunk from `x` in this one array. */
    method RemoveOrPass(ghost x: Table, token: Token, eventType: nat, j: nat) returns (next: nat)
      requires x.Valid() && token.kind in x.events && eventType == x.events[token.kind]
      requires eventType in arrays && j < |arrays[eventType]| && Value() == x.Shrink(token.kind, arrays[eventType])
      modifies this`events, this`native, this`arrays, this`hasEvents, this`hasPrivate
      ensures eventType in arrays
      ensures var items := old(arrays)[eventType];
              if OneDoomed(token, None)(items[j]) then next == j && arrays[eventType] == Spliced(items, j)
              else next == j + 1 && arrays[eventType] == items
      ensures Value() == x.Shrink(token.kind, arrays[eventType])
      ensures old(hasEvents) ==> hasEvents == (events != map[])
      ensures hasPrivate == if events == map[] then others != {} else old(hasPrivate)
    {
      var handleObj := arrays[eventType][j];
      next := j + 1;
      ShrinkBound(x, token.kind, arrays[eventType]);
      if Matches(token, handleObj) {
        ShrinkTwice(x, token.kind, arrays[eventType], Spliced(arrays[eventType], j));
        RemoveAndSplice(token, handleObj.handler, j);
        next := next - 1;
      }
    }

    /** Its loop for a piece such as ".ns".  The inner call is given the same string, which starts
        with a dot, so that it is about every type; with the binding still there it comes back to
        that string, and the splice behind it is never reached. */
    method RemoveEveryEmpty(token: Token, order: seq<string>, depth: nat) returns (returned: bool)
      requires Valid() && token.kind == "" && "" in events && "" in order
      modifies this`events, this`native, this`arrays, this`hasEvents, this`hasPrivate
      ensures Valid() && (returned <==> !Recurses(old(Value()), token, None))
      ensures returned ==> Value() == old(Value()) == ShrinkOne(old(Value()), token, None)
      ensures returned ==> hasEvents == old(hasEvents) && hasPrivate == old(hasPrivate)
      decreases depth, 2
    {
      ghost var x := Value();
      var eventType := events[""];
      var j := 0;
      while j < |arrays[eventType]|
        invariant j <= |arrays[eventType]| && Value() == x && Valid()
        invariant hasEvents == old(hasEvents) && hasPrivate == old(hasPrivate)
        invariant forall k | 0 <= k < j :: !Matches(token, arrays[eventType][k])
      {
        var handleObj := arrays[eventType][j];
        if Matches(token, handleObj) {
          assert x.Bound("")[j] == handleObj;
          NeverReturns(x, [token], Some(handleObj.handler), order, depth);
          returned := RemoveWithin([token], Some(handleObj.handler), order, depth);
          return;
        }
        j := j + 1;
      }
      NothingRecurses(x, token);
      return true;
    }

    /** Without bindings there is neither an events object nor a handle, and a private data object
        only for other data. */
    ghost predicate Tidy()
      reads this
    {
      events == map[] ==> !hasEvents && (hasPrivate <==> others != {})
    }

    /** The loop over the pieces of a types string. */
    method RemoveNamed(types: seq<Token>, handler: Option<nat>, order: seq<string>, depth: nat) returns (returned: bool)
      requires Valid() && "" in order
      modifies this`events, this`native, this`arrays, this`hasEvents, this`hasPrivate
      ensures Valid()
      ensures returned <==> EachPiece(old(Value()), types, handler, order, depth).Some?
      ensures returned ==> Tidy() && Value() == EachPiece(old(Value()), types, handler, order, depth).value
      decreases depth, 5
    {
      ghost var x := Value();
      for i := 0 to |types|
        invariant Valid() && EachPiece(x, types[..i], handler, order, depth) == Some(Value())
      {
        assert types[..i + 1][..i] == types[..i];
        var inner := RemoveOne(types[i], handler, order, depth);
        if !inner {
          StaysNone(x, types, i + 1, handler, order, depth);
          return false;
        }
      }
      DropEmpty();
      assert types[..|types|] == types;
      return true;
    }

    method RemoveOne(token: Token, handler: Option<nat>, order: seq<string>, depth: nat) returns (returned: bool)
      requires Valid() && "" in order
      modifies this`events, this`native, this`arrays, this`hasEvents, this`hasPrivate
      ensures Valid() && (returned <==> OnePiece(old(Value()), token, handler, order, depth).Some?)
      ensures returned ==> Value() == OnePiece(old(Value()), token, handler, order, depth).value
      decreases depth, 4
    {
      PieceExactly(Value(), token, handler, order, depth);
      returned := true;
      if token.kind in events {
        if handler.None? {
          returned := RemoveEvery(token, order, depth);
        } else {
          RemoveHandler(token, handler.value);
        }
      }
    }

    /** `remove`, given at least two calls of itself one inside the other (more change nothing). It
        returns exactly unless it comes to ".ns" with a binding under the empty type; then exactly
        the doomed bindings are gone, and the others keep their order. */
    method Remove(types: seq<Token>, handler: Option<nat>, order: seq<string>, depth: nat) returns (returned: bool)
      requires Valid() && Covers(order, Value()) && depth >= 2
      modifies this`events, this`native, this`arrays, this`hasEvents, this`hasPrivate
      ensures Valid()
      ensures returned <==> Returns(old(Value()), types, handler)
      ensures returned ==> forall t :: Value().Bound(t) == Keep(old(Value()).Bound(t), DoomedAt(types, handler, t))
      ensures returned && (old(events) != map[] || old(Tidy())) ==> Tidy()
    {
      RemoveExactly(Value(), types, handler, order, depth);
      returned := RemoveWithin(types, handler, order, depth);
    }

    /** The same, as far as it gets with `depth` calls of itself one inside the other.  `order` is
        the order in which `for in` meets the types. */
    method RemoveWithin(types: seq<Token>, handler: Option<nat>, order: seq<string>, depth: nat)
      returns (returned: bool)
      requires Valid() && "" in order
      modifies this`events, this`native, this`arrays, this`hasEvents, this`hasPrivate
      ensures Valid()
      ensures returned <==> RemoveDeep(old(Value()), types, handler, order, depth).Some?
      ensures returned ==> Value() == RemoveDeep(old(Value()), types, handler, order, depth).value
      ensures returned && (old(events) != map[] || old(Tidy())) ==> Tidy()
      decreases depth, 0
    {
      if depth == 0 {
        return false;
      }
      if !hasEvents {
        NothingBound(Value(), types, handler, order, depth);
        return true;
      }
      if AllTypes(types) {
        returned := RemoveAll(types, order, depth - 1);
      } else {
        returned := RemoveNamed(types, handler, order, depth - 1);
      }
    }

    /** `for ( type in events )`: the call without types, or with namespaces first. */
    method RemoveAll(types: seq<Token>, order: seq<string>, depth: nat) returns (returned: bool)
      requires Valid() && AllTypes(types) && "" in order
      modifies this`events, this`native, this`arrays, this`hasEvents, this`hasPrivate
      ensures Valid()
      ensures returned <==> EachType(old(Value()), types, order, order, depth).Some?
      ensures returned ==> Value() == EachType(old(Value()), types, order, order, depth).value
      ensures returned && (old(events) != map[] || old(Tidy())) ==> Tidy()
      decreases depth, 6
    {
      ghost var x := Value();
      assert order[0..] == order;
      for k := 0 to |order|
        invariant Valid()
        invariant EachType(x, types, order, order, depth) == EachType(Value(), types, order, order[k..], depth)
        invariant x.events != map[] && events == map[] ==> Tidy()
        invariant x.events == map[] ==> events == map[] && (old(Tidy()) ==> Tidy())
      {
        assert order[k..][1..] == order[k + 1..];
        if order[k] in events {
          var inner := RemoveWithin(ForType(order[k], types), None, order, depth);
          if !inner {
            return false;
          }
        }
      }
      return true;
    }
  }

  /** The doomed bindings of a call that names types. */
  function NamedAt(types: seq<Token>, handler: Option<nat>, kind: string): HandleObj -> bool {
    (h: HandleObj) => Named(types, kind, h) && (handler.Some? ==> handler.value == h.guid)
  }

  /** One piece of a types string. */
  ghost function ShrinkOne(x: Table, token: Token, handler: Option<nat>): (r: Table)
    requires x.Valid()
    ensures r.Valid()
  {
    if token.kind in x.events then
      (ShrinkBound(x, token.kind, Keep(x.Bound(token.kind), OneDoomed(token, handler)));
       x.Shrink(token.kind, Keep(x.Bound(token.kind), OneDoomed(token, handler))))
    else x
  }

  /** The loop over the pieces of the types string. */
  ghost function ShrinkAll(x: Table, types: seq<Token>, handler: Option<nat>): (r: Table)
    requires x.Valid()
    ensures r.Valid()
  {
    if types == [] then x else ShrinkOne(ShrinkAll(x, types[..|types| - 1], handler), types[|types| - 1], handler)
  }

  lemma {:induction false} ShrinkAllBound(x: Table, types: seq<Token>, handler: Option<nat>, t: string)
    requires x.Valid()
    ensures ShrinkAll(x, types, handler).Bound(t) == Keep(x.Bound(t), NamedAt(types, handler, t))
    decreases |types|
  {
    if types == [] {
      KeepAll(x.Bound(t), NamedAt(types, handler, t));
    } else {
      var front, last := types[..|types| - 1], types[|types| - 1];
      ShrinkAllBound(x, front, handler, t);
      var y := ShrinkAll(x, front, handler);
      NamedSnoc(front, last, t);
      assert types == front + [last];
      if last.kind == t {
        KeepTwice(x.Bound(t), NamedAt(front, handler, t), OneDoomed(last, handler), NamedAt(types, handler, t));
      } else {
        KeepSame(x.Bound(t), NamedAt(front, handler, t), NamedAt(types, handler, t));
      }
      if last.kind in y.events {
        ShrinkBound(y, last.kind, Keep(y.Bound(last.kind), OneDoomed(last, handler)));
      }
    }
  }

  lemma ShrinkAllDoomed(x: Table, types: seq<Token>, handler: Option<nat>)
    requires x.Valid() && !AllTypes(types)
    ensures forall t :: ShrinkAll(x, types, handler).Bound(t) == Keep(x.Bound(t), DoomedAt(types, handler, t))
  {
    forall t ensures ShrinkAll(x, types, handler).Bound(t) == Keep(x.Bound(t), DoomedAt(types, handler, t)) {
      ShrinkAllBound(x, types, handler, t);
      KeepSame(x.Bound(t), NamedAt(types, handler, t), DoomedAt(types, handler, t));
    }
  }

  // ---- the recursion of remove ----

  /** The outcome of `remove` if it returns without more than `depth` calls of itself one inside
      the other (not counting inner calls that cannot call further). */
  ghost function RemoveDeep(x: Table, types: seq<Token>, handler: Option<nat>, order: seq<string>, depth: nat)
    : (r: Option<Table>)
    requires x.Valid()
    ensures r.Some? ==> r.value.Valid()
    decreases depth, 0
  {
    if depth == 0 then None
    else if AllTypes(types) then EachType(x, types, order, order, depth - 1)
    else EachPiece(x, types, handler, order, depth - 1)
  }

  /** What is left of `for ( type in events )`; a type that is gone by its turn is not met. */
  ghost function EachType(x: Table, types: seq<Token>, order: seq<string>, todo: seq<string>, depth: nat)
    : (r: Option<Table>)
    requires x.Valid()
    ensures r.Some? ==> r.value.Valid()
    decreases depth, |todo| + 1
  {
    if todo == [] then Some(x)
    else if todo[0] !in x.events then EachType(x, types, order, todo[1..], depth)
    else
      match RemoveDeep(x, ForType(todo[0], types), None, order, depth)
      case None => None
      case Some(y) => EachType(y, types, order, todo[1..], depth)
  }

  /** The loop over the pieces of a types string. */
  ghost function EachPiece(x: Table, types: seq<Token>, handler: Option<nat>, order: seq<string>, depth: nat)
    : (r: Option<Table>)
    requires x.Valid()
    ensures r.Some? ==> r.value.Valid()
    decreases depth, |types| + 2
  {
    if types == [] then Some(x)
    else
      match EachPiece(x, types[..|types| - 1], handler, order, depth)
      case None => None
      case Some(y) => OnePiece(y, types[|types| - 1], handler, order, depth)
  }

  /** One piece; before it splices a binding out under the empty type, it calls `remove` with the
      same piece. */
  ghost function OnePiece(x: Table, token: Token, handler: Option<nat>, order: seq<string>, depth: nat)
    : (r: Option<Table>)
    requires x.Valid()
    ensures r.Some? ==> r.value.Valid()
    decreases depth, 1
  {
    if Recurses(x, token, handler) then RemoveDeep(x, [token], handler, order, depth)
    else Some(ShrinkOne(x, token, handler))
  }

  /** A piece of the empty type, without a handler, that matches a binding. */
  predicate Recurses(x: Table, token: Token, handler: Option<nat>)
    requires x.Linked()
  {
    handler.None? && token.kind == "" && exists k :: 0 <= k < |x.Bound("")| && Matches(token, x.Bound("")[k])
  }

  /** Exactly when `remove` returns. */
  predicate Returns(x: Table, types: seq<Token>, handler: Option<nat>)
    requires x.Linked()
  {
    if AllTypes(types) then "" !in x.events
    else forall i :: 0 <= i < |types| ==> !Recurses(x, types[i], handler)
  }

  /** `type + types` */
  function ForType(kind: string, types: seq<Token>): seq<Token> {
    [Token(kind, FirstNamespaces(types))] + Rest(types)
  }

  /** Every type there is has its place in the order of `for in`, and so has the empty one. */
  predicate Covers(order: seq<string>, x: Table) {
    "" in order && forall t | t in x.events :: t in order
  }

  lemma NothingRecurses(x: Table, token: Token)
    requires x.Valid() && token.kind == "" && !Recurses(x, token, None)
    ensures ShrinkOne(x, token, None) == x
  {
    if "" in x.events {
      var items, p := x.Bound(""), OneDoomed(token, None);
      forall h | h in items ensures !p(h) {
        var k :| 0 <= k < |items| && items[k] == h;
      }
      KeepSame(items, p, (h: HandleObj) => false);
      KeepAll(items, (h: HandleObj) => false);
      EditSame(x, "");
    }
  }

  lemma {:induction false} StaysNone(x: Table, types: seq<Token>, i: nat, handler: Option<nat>, order: seq<string>,
                                     depth: nat)
    requires x.Valid() && i <= |types| && EachPiece(x, types[..i], handler, order, depth) == None
    ensures EachPiece(x, types, handler, order, depth) == None
    decreases |types| - i
  {
    if i < |types| {
      assert types[..i + 1][..i] == types[..i];
      StaysNone(x, types, i + 1, handler, order, depth);
    } else {
      assert types[..i] == types;
    }
  }

  lemma {:induction false} NothingMet(x: Table, types: seq<Token>, order: seq<string>, todo: seq<string>, depth: nat)
    requires x.Valid() && x.events == map[]
    ensures EachType(x, types, order, todo, depth) == Some(x)
    decreases |todo|
  {
    if todo != [] {
      NothingMet(x, types, order, todo[1..], depth);
    }
  }

  lemma {:induction false} NothingNamed(x: Table, types: seq<Token>, handler: Option<nat>, order: seq<string>,
                                        depth: nat)
    requires x.Valid() && x.events == map[]
    ensures EachPiece(x, types, handler, order, depth) == Some(x)
    decreases |types|
  {
    if types != [] {
      NothingNamed(x, types[..|types| - 1], handler, order, depth);
    }
  }

  lemma NothingBound(x: Table, types: seq<Token>, handler: Option<nat>, order: seq<string>, depth: nat)
    requires x.Valid() && x.events == map[] && depth > 0
    ensures RemoveDeep(x, types, handler, order, depth) == Some(x)
  {
    NothingNamed(x, types, handler, order, depth - 1);
    NothingMet(x, types, order, order, depth - 1);
  }

  /** Pieces that do not recurse leave the empty type as it is, unless there is a handler. */
  lemma {:induction false} EmptyUntouched(x: Table, types: seq<Token>)
    requires x.Valid() && forall i :: 0 <= i < |types| ==> !Recurses(x, types[i], None)
    ensures ShrinkAll(x, types, None).Bound("") == x.Bound("")
    decreases |types|
  {
    if types != [] {
      var init, last := types[..|types| - 1], types[|types| - 1];
      assert forall i :: 0 <= i < |init| ==> init[i] == types[i];
      EmptyUntouched(x, init);
      var y := ShrinkAll(x, init, None);
      if last.kind == "" {
        assert !Recurses(x, types[|types| - 1], None);
        assert !Recurses(y, last, None);
        NothingRecurses(y, last);
      } else if last.kind in y.events {
        ShrinkBound(y, last.kind, Keep(y.Bound(last.kind), OneDoomed(last, None)));
      }
    }
  }

  /** Pieces that do not recurse are taken one after the other. */
  lemma {:induction false} PiecesReturn(x: Table, types: seq<Token>, handler: Option<nat>, order: seq<string>,
                                        depth: nat)
    requires x.Valid() && forall i :: 0 <= i < |types| ==> !Recurses(x, types[i], handler)
    ensures EachPiece(x, types, handler, order, depth) == Some(ShrinkAll(x, types, handler))
    decreases |types|
  {
    if types != [] {
      var init := types[..|types| - 1];
      assert forall i :: 0 <= i < |init| ==> init[i] == types[i];
      PiecesReturn(x, init, handler, order, depth);
      if handler.None? {
        EmptyUntouched(x, init);
        assert !Recurses(x, types[|types| - 1], handler);
      }
    }
  }

  /** With a binding under the empty type that it comes to, the call calls itself with the same
      string, whatever the depth. */
  lemma {:induction false} NeverReturns(x: Table, types: seq<Token>, handler: Option<nat>, order: seq<string>,
                                        depth: nat)
    requires x.Valid() && "" in order && !Returns(x, types, handler)
    ensures RemoveDeep(x, types, handler, order, depth) == None
    decreases depth, 0
  {
    if depth > 0 {
      if AllTypes(types) {
        NeverPasses(x, types, order, order, depth - 1);
      } else {
        var i :| 0 <= i < |types| && Recurses(x, types[i], handler);
        NeverThrough(x, types, handler, order, depth - 1, i);
      }
    }
  }

  lemma {:induction false} NeverPasses(x: Table, types: seq<Token>, order: seq<string>, todo: seq<string>, depth: nat)
    requires x.Valid() && AllTypes(types) && "" in order && "" in todo && "" in x.events
    ensures EachType(x, types, order, todo, depth) == None
    decreases depth, |todo| + 1
  {
    var t := todo[0];
    var inner := ForType(t, types);
    if t !in x.events {
      NeverPasses(x, types, order, todo[1..], depth);
    } else if !Returns(x, inner, None) {
      NeverReturns(x, inner, None, order, depth);
    } else if depth > 0 {
      PiecesReturn(x, inner, None, order, depth - 1);
      EmptyUntouched(x, inner);
      NeverPasses(ShrinkAll(x, inner, None), types, order, todo[1..], depth);
    }
  }

  lemma {:induction false} NeverThrough(x: Table, types: seq<Token>, handler: Option<nat>, order: seq<string>,
                                        depth: nat, i: nat)
    requires x.Valid() && "" in order && i < |types| && Recurses(x, types[i], handler)
    ensures EachPiece(x, types, handler, order, depth) == None
    decreases depth, |types| + 2
  {
    var init := types[..|types| - 1];
    assert forall k :: 0 <= k < |init| ==> init[k] == types[k];
    if k :| 0 <= k < |init| && Recurses(x, init[k], handler) {
      NeverThrough(x, init, handler, order, depth, k);
    } else {
      PiecesReturn(x, init, handler, order, depth);
      EmptyUntouched(x, init);
      var y := ShrinkAll(x, init, handler);
      assert Recurses(y, types[i], handler);
      NeverReturns(y, [types[i]], handler, order, depth);
    }
  }

  lemma PieceExactly(x: Table, token: Token, handler: Option<nat>, order: seq<string>, depth: nat)
    requires x.Valid() && "" in order
    ensures OnePiece(x, token, handler, order, depth)
            == if Recurses(x, token, handler) then None else Some(ShrinkOne(x, token, handler))
  {
    if Recurses(x, token, handler) {
      NeverReturns(x, [token], handler, order, depth);
    }
  }

  /** What is gone after the types in `done` had their turn, and some type was there (`ran`). */
  function Partly(types: seq<Token>, done: set<string>, ran: bool, kind: string): HandleObj -> bool {
    (h: HandleObj) => (kind in done && FirstNamespaces(types) <= h.namespaces) || (ran && Named(Rest(types), kind, h))
  }

  ghost predicate PartlyDone(x: Table, y: Table, types: seq<Token>, done: set<string>, ran: bool)
    requires x.Linked() && y.Linked()
  {
    forall t :: y.Bound(t) == Keep(x.Bound(t), Partly(types, done, ran, t))
  }

  lemma NothingPartly(x: Table, types: seq<Token>)
    requires x.Linked()
    ensures PartlyDone(x, x, types, {}, false)
  {
    forall t ensures x.Bound(t) == Keep(x.Bound(t), Partly(types, {}, false, t)) {
      KeepAll(x.Bound(t), Partly(types, {}, false, t));
    }
  }

  lemma PartlyStep(x: Table, y: Table, z: Table, types: seq<Token>, done: set<string>, ran: bool, t: string)
    requires x.Linked() && y.Linked() && z.Linked() && t != "" && PartlyDone(x, y, types, done, ran)
    requires forall u :: z.Bound(u) == Keep(y.Bound(u), DoomedAt(ForType(t, types), None, u))
    ensures PartlyDone(x, z, types, done + {t}, true)
  {
    forall u ensures z.Bound(u) == Keep(x.Bound(u), Partly(types, done + {t}, true, u)) {
      NamedCons(Token(t, FirstNamespaces(types)), Rest(types), u);
      KeepTwice(x.Bound(u), Partly(types, done, ran, u), DoomedAt(ForType(t, types), None, u),
                Partly(types, done + {t}, true, u));
    }
  }

  /** A type that is not met has nothing left to lose. */
  lemma PartlySkip(x: Table, y: Table, types: seq<Token>, done: set<string>, ran: bool, t: string)
    requires x.Linked() && y.Linked() && t !in y.events && PartlyDone(x, y, types, done, ran)
    ensures PartlyDone(x, y, types, done + {t}, ran)
  {
    forall u ensures y.Bound(u) == Keep(x.Bound(u), Partly(types, done + {t}, ran, u)) {
      if u == t {
        var more := Partly(types, done + {t}, ran, t);
        KeepTwice(x.Bound(t), Partly(types, done, ran, t), more, more);
        assert Keep([], Partly(types, done + {t}, ran, t)) == [];
      } else {
        KeepSame(x.Bound(u), Partly(types, done, ran, u), Partly(types, done + {t}, ran, u));
      }
    }
  }

  /** With nothing under the empty type the loop ends, and every type has lost what it was to lose. */
  lemma {:induction false} LoopEnds(x: Table, y: Table, types: seq<Token>, order: seq<string>, todo: seq<string>,
                                    depth: nat,
                                    done: set<string>, ran: bool)
    requires x.Valid() && y.Valid() && AllTypes(types) && depth > 0 && "" !in y.events
    requires PartlyDone(x, y, types, done, ran)
    requires !ran ==> y == x && forall t | t in done :: t !in x.events
    requires forall t | t in x.events :: t in done || t in todo
    ensures EachType(y, types, order, todo, depth).Some?
    ensures forall t ::
              EachType(y, types, order, todo, depth).value.Bound(t) == Keep(x.Bound(t), DoomedAt(types, None, t))
    decreases |todo|
  {
    if todo == [] {
      AllDone(x, y, types, done, ran);
    } else if todo[0] !in y.events {
      PartlySkip(x, y, types, done, ran, todo[0]);
      LoopEnds(x, y, types, order, todo[1..], depth, done + {todo[0]}, ran);
    } else {
      var z := Turn(x, y, types, order, todo, depth, done, ran);
      LoopEnds(x, z, types, order, todo[1..], depth, done + {todo[0]}, true);
    }
  }

  /** The turn of a type that is met. */
  lemma Turn(x: Table, y: Table, types: seq<Token>, order: seq<string>, todo: seq<string>, depth: nat,
             done: set<string>, ran: bool) returns (z: Table)
    requires x.Valid() && y.Valid() && AllTypes(types) && depth > 0
    requires todo != [] && todo[0] in y.events && "" !in y.events
    requires PartlyDone(x, y, types, done, ran)
    ensures z.Valid() && RemoveDeep(y, ForType(todo[0], types), None, order, depth) == Some(z)
    ensures "" !in z.events && PartlyDone(x, z, types, done + {todo[0]}, true)
  {
    var inner := ForType(todo[0], types);
    z := ShrinkAll(y, inner, None);
    PiecesReturn(y, inner, None, order, depth - 1);
    EmptyUntouched(y, inner);
    ShrinkAllDoomed(y, inner, None);
    PartlyStep(x, y, z, types, done, ran, todo[0]);
  }

  lemma AllDone(x: Table, y: Table, types: seq<Token>, done: set<string>, ran: bool)
    requires x.Valid() && y.Valid() && AllTypes(types) && PartlyDone(x, y, types, done, ran)
    requires !ran ==> y == x && forall t | t in done :: t !in x.events
    requires forall t | t in x.events :: t in done
    ensures forall t :: y.Bound(t) == Keep(x.Bound(t), DoomedAt(types, None, t))
  {
    forall t ensures y.Bound(t) == Keep(x.Bound(t), DoomedAt(types, None, t)) {
      if t in x.events {
        KeepSame(x.Bound(t), Partly(types, done, ran, t), DoomedAt(types, None, t));
      }
    }
  }

  /** `remove` returns exactly when it comes to no binding under the empty type with ".ns" and no
      handler; then exactly the doomed bindings are gone, and the others keep their order. */
  lemma RemoveExactly(x: Table, types: seq<Token>, handler: Option<nat>, order: seq<string>, depth: nat)
    requires x.Valid() && Covers(order, x) && depth >= 2
    ensures RemoveDeep(x, types, handler, order, depth).Some? <==> Returns(x, types, handler)
    ensures RemoveDeep(x, types, handler, order, depth).Some? ==>
              forall t :: RemoveDeep(x, types, handler, order, depth).value.Bound(t)
                          == Keep(x.Bound(t), DoomedAt(types, handler, t))
  {
    if !Returns(x, types, handler) {
      NeverReturns(x, types, handler, order, depth);
    } else if !AllTypes(types) {
      PiecesReturn(x, types, handler, order, depth - 1);
      ShrinkAllDoomed(x, types, handler);
    } else {
      NothingPartly(x, types);
      LoopEnds(x, x, types, order, order, depth - 1, {}, false);
      HandlerIgnored(x, types, handler);
    }
  }

  lemma HandlerIgnored(x: Table, types: seq<Token>, handler: Option<nat>)
    requires x.Linked() && AllTypes(types)
    ensures forall t :: Keep(x.Bound(t), DoomedAt(types, None, t)) == Keep(x.Bound(t), DoomedAt(types, handler, t))
  {
    forall t ensures Keep(x.Bound(t), DoomedAt(types, None, t)) == Keep(x.Bound(t), DoomedAt(types, handler, t)) {
      KeepSame(x.Bound(t), DoomedAt(types, None, t), DoomedAt(types, handler, t));
    }
  }

  /** Without types, or with namespaces first, `remove` returns exactly when nothing is bound under
      the empty type. */
  lemma UnbindReturnsExactly(x: Table, types: seq<Token>, handler: Option<nat>, order: seq<string>, depth: nat)
    requires x.Valid() && Covers(order, x) && depth >= 2 && AllTypes(types)
    ensures RemoveDeep(x, types, handler, order, depth).Some? <==> "" !in x.events
  {
    RemoveExactly(x, types, handler, order, depth);
  }

  /** `bind( ".ns", f )` */
  function NamespaceBound(): Table {
    Bind(Table(map[], map[], 0, {}), "", HandleObj(1, 1, multiset{"ns"}))
  }

  /** Then `unbind()`: no depth is enough. */
  lemma NamespaceAloneNeverReturns(order: seq<string>, depth: nat)
    requires "" in order
    ensures NamespaceBound() == BindAll(Table(map[], map[], 0, {}), [Token("", multiset{"ns"})], 1, 1)
    ensures NamespaceBound().Valid() && RemoveDeep(NamespaceBound(), [], None, order, depth) == None
  {
    assert [Token("", multiset{"ns"})][..0] == [];
    BindBound(Table(map[], map[], 0, {}), "", HandleObj(1, 1, multiset{"ns"}));
    NeverReturns(NamespaceBound(), [], None, order, depth);
  }

  /** `bind( ".ns", f )`, `bind( "click", g )`, `unbind( "click .ns" )`: no depth is enough either,
      and with a handler the same call returns. */
  lemma LaterNamespaceNeverReturns(order: seq<string>, depth: nat) returns (x: Table)
    requires "" in order && "click" in order && depth >= 2
    ensures x == Bind(NamespaceBound(), "click", HandleObj(2, 2, multiset{})) && x.Valid()
    ensures RemoveDeep(x, [Token("click", multiset{}), Token("", multiset{"ns"})], None, order, depth) == None
    ensures RemoveDeep(x, [Token("click", multiset{}), Token("", multiset{"ns"})], Some(1), order, depth).Some?
  {
    var types := [Token("click", multiset{}), Token("", multiset{"ns"})];
    BindBound(Table(map[], map[], 0, {}), "", HandleObj(1, 1, multiset{"ns"}));
    x := Bind(NamespaceBound(), "click", HandleObj(2, 2, multiset{}));
    BindBound(NamespaceBound(), "click", HandleObj(2, 2, multiset{}));
    assert x.Bound("")[0] == HandleObj(1, 1, multiset{"ns"});
    assert Recurses(x, types[1], None);
    NeverReturns(x, types, None, order, depth);
    RemoveExactly(x, types, Some(1), order, depth);
  }

  lemma NamedSnoc(types: seq<Token>, token: Token, kind: string)
    ensures forall h :: Named(types + [token], kind, h) <==>
              Named(types, kind, h) || (token.kind == kind && Matches(token, h))
  {
    forall h ensures Named(types + [token], kind, h) <==>
      Named(types, kind, h) || (token.kind == kind && Matches(token, h))
    {
      if Named(types, kind, h) {
        var i :| 0 <= i < |types| && types[i].kind == kind && Matches(types[i], h);
        assert (types + [token])[i] == types[i];
      }
      if token.kind == kind && Matches(token, h) {
        assert (types + [token])[|types|] == token;
      }
    }
  }

  lemma NamedCons(token: Token, types: seq<Token>, kind: string)
    ensures forall h :: Named([token] + types, kind, h) <==>
              (token.kind == kind && Matches(token, h)) || Named(types, kind, h)
  {
    forall h ensures Named([token] + types, kind, h) <==>
      (token.kind == kind && Matches(token, h)) || Named(types, kind, h)
    {
      if Named(types, kind, h) {
        var i :| 0 <= i < |types| && types[i].kind == kind && Matches(types[i], h);
        assert ([token] + types)[i + 1] == types[i];
      }
      if token.kind == kind && Matches(token, h) {
        assert ([token] + types)[0] == token;
      }
    }
  }
}
