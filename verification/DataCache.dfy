/** `jQuery.data`, `jQuery.removeData` and `jQuery.cleanData` on DOM nodes.

    The source keeps one global cache indexed by an id stored in the node, with the private data
    nested inside the entry; it is proved to behave as two independent maps per node.  Keys are
    taken as `jQuery.camelCase` leaves them. */
module DataCache {
  import opened Wrappers

  type Elem = nat
  type Key = string
  type Value = int

  /** By `jQuery.noData`: most nodes, nodes that refuse an expando, and Flash objects, which
      accept one although their node name is listed. */
  datatype Kind = Ordinary | Refusing | Flash

  /** An entry of `jQuery.cache`; `pvt` is what it holds under the internal key. */
  datatype Entry = Entry(user: map<Key, Value>, pvt: Option<map<Key, Value>>)

  /** The two maps a caller sees. */
  datatype Maps = Maps(user: map<Key, Value>, pvt: map<Key, Value>) {
    function Of(pvt_: bool): map<Key, Value> {
      if pvt_ then pvt else user
    }

    function With(pvt_: bool, m: map<Key, Value>): Maps {
      if pvt_ then this.(pvt := m) else this.(user := m)
    }
  }

  const NOTHING := Maps(map[], map[])

  function MapsOf(e: Entry): Maps {
    Maps(e.user, if e.pvt.Some? then e.pvt.value else map[])
  }

  /** What one call may ask for. */
  datatype Op =
    | Get(elem: Elem, name: Key, pvt: bool)                 // data( elem, name )
    | GetAll(elem: Elem, pvt: bool)                         // data( elem )
    | Put(elem: Elem, name: Key, value: Value, pvt: bool)   // data( elem, name, value )
    | Merge(elem: Elem, values: map<Key, Value>, pvt: bool) // data( elem, { ... } )
    | Remove(elem: Elem, key: Option<Key>, pvt: bool)       // removeData( elem, name )
    | Clean(elems: seq<Elem>)                               // cleanData( elems )

  /** `Inherited` is what every JavaScript object has under a name such as "constructor". */
  datatype Answer = Nothing | Found(value: Value) | All(values: map<Key, Value>) | Inherited(name: Key)

  // ---- the two plain maps ----

  /** One call on the plain maps of one node. */
  function PlainStep(kind: Elem -> Kind, op: Op, n: Elem, m: Maps): Maps {
    match op
    case Get(_, _, _) => m
    case GetAll(_, _) => m
    case Put(e, name, value, pvt) =>
      if e == n && kind(n) != Refusing then m.With(pvt, m.Of(pvt)[name := value]) else m
    case Merge(e, values, pvt) =>
      if e == n && kind(n) != Refusing then m.With(pvt, m.Of(pvt) + values) else m
    case Remove(e, name, pvt) =>
      if e == n && kind(n) != Refusing then m.With(pvt, if name.Some? then m.Of(pvt) - {name.value} else map[]) else m
    case Clean(elems) => if n in elems && kind(n) == Ordinary then NOTHING else m
  }

  function PlainAnswer(kind: Elem -> Kind, op: Op, m: Maps): Answer {
    match op
    case Get(e, name, pvt) =>
      if kind(e) != Refusing && name in m.Of(pvt) then Found(m.Of(pvt)[name]) else Nothing
    case GetAll(e, pvt) => if kind(e) != Refusing then All(m.Of(pvt)) else Nothing
    case Put(e, name, value, pvt) => if kind(e) != Refusing then Found(value) else Nothing
    case Merge(e, values, pvt) => if kind(e) != Refusing then All(m.Of(pvt) + values) else Nothing
    case Remove(_, _, _) => Nothing
    case Clean(_) => Nothing
  }

  function PlainRun(kind: Elem -> Kind, ops: seq<Op>, n: Elem): Maps {
    if ops == [] then NOTHING
    else PlainStep(kind, ops[|ops| - 1], n, PlainRun(kind, ops[..|ops| - 1], n))
  }

  function Target(op: Op): Elem {
    match op
    case Clean(elems) => 0
    case Get(e, _, _) => e
    case GetAll(e, _) => e
    case Put(e, _, _, _) => e
    case Merge(e, _, _) => e
    case Remove(e, _, _) => e
  }

  /** The index: the expando of each node, the cache, and (for proofs) whose entry each id is. */
  datatype Index = Index(expando: map<Elem, nat>, cache: map<nat, Entry>, uuid: nat, owner: map<nat, Elem>)
  {
    /** Every id in a node has an entry, every entry a node, and no two nodes share an id. */
    predicate Valid() {
      && owner.Keys == cache.Keys
      && (forall n | n in expando :: expando[n] in owner && owner[expando[n]] == n)
      && (forall id | id in owner :: 0 < id <= uuid && owner[id] in expando && expando[owner[id]] == id)
    }

    function View(n: Elem): Maps
      requires Valid()
    {
      if n in expando then MapsOf(cache[expando[n]]) else NOTHING
    }

    function Replace(n: Elem, e: Entry): (r: Index)
      requires Valid() && n in expando
      ensures r.Valid()
    {
      this.(cache := cache[expando[n] := e])
    }

    function Without(n: Elem): (r: Index)
      requires Valid() && n in expando
      ensures r.Valid()
    {
      Index(expando - {n}, cache - {expando[n]}, uuid, owner - {expando[n]})
    }

    function Fresh(n: Elem): (r: Index)
      requires Valid() && n !in expando
      ensures r.Valid()
    {
      Index(expando[n := uuid + 1], cache[uuid + 1 := Entry(map[], None)], uuid + 1, owner[uuid + 1 := n])
    }
  }

  lemma ReplaceView(x: Index, n: Elem, e: Entry)
    requires x.Valid() && n in x.expando
    ensures forall m :: x.Replace(n, e).View(m) == if m == n then MapsOf(e) else x.View(m)
  {
  }

  lemma WithoutView(x: Index, n: Elem)
    requires x.Valid() && n in x.expando
    ensures forall m :: x.Without(n).View(m) == if m == n then NOTHING else x.View(m)
  {
  }

  lemma FreshView(x: Index, n: Elem)
    requires x.Valid() && n !in x.expando
    ensures forall m :: x.Fresh(n).View(m) == x.View(m)
  {
    forall m ensures x.Fresh(n).View(m) == x.View(m) {
      if m in x.expando {
        assert x.expando[m] in x.owner;
      }
    }
  }

  /** What a call of `data` writes into the entry: the merged object, an empty private object where
      there was none, the value. */
  function Written(e: Entry, op: Op): Entry
    requires op.Get? || op.GetAll? || op.Put? || op.Merge?
  {
    var merged :=
      if !op.Merge? then e
      else if op.pvt then e.(pvt := Some((if e.pvt.Some? then e.pvt.value else map[]) + op.values))
      else e.(user := e.user + op.values);
    var withPvt := if op.pvt && merged.pvt.None? then merged.(pvt := Some(map[])) else merged;
    if !op.Put? then withPvt
    else if op.pvt then withPvt.(pvt := Some(withPvt.pvt.value[op.name := op.value]))
    else withPvt.(user := withPvt.user[op.name := op.value])
  }

  lemma WrittenMaps(kind: Elem -> Kind, e: Entry, op: Op)
    requires (op.Get? || op.GetAll? || op.Put? || op.Merge?) && kind(op.elem) != Refusing
    ensures MapsOf(Written(e, op)) == PlainStep(kind, op, op.elem, MapsOf(e))
    ensures op.pvt ==> Written(e, op).pvt.Some?
  {
  }

  /** Valid, and only nodes that accept an expando have one. */
  ghost predicate Sound(x: Index, kind: Elem -> Kind) {
    x.Valid() && forall n | n in x.expando :: kind(n) != Refusing
  }

  /** `y` is `x` after a call on `n` that left the maps `m` there. */
  ghost predicate Changed(x: Index, y: Index, n: Elem, m: Maps)
    requires x.Valid() && y.Valid()
  {
    && y.View(n) == m
    && forall k | k != n :: y.View(k) == x.View(k) && (k in y.expando <==> k in x.expando)
  }

  /** There is an object to look into: the entry, and in it the private one. */
  predicate HasObject(x: Index, n: Elem, pvt: bool)
    requires x.Valid()
  {
    n in x.expando && (pvt ==> x.cache[x.expando[n]].pvt.Some?)
  }

  /** The answer of a call: of the plain map, unless it reads a name that is no key but inherited,
      and there is an object to inherit it. */
  function AnswerOf(kind: Elem -> Kind, inherited: set<Key>, op: Op, x: Index): Answer
    requires x.Valid()
  {
    if op.Get? && kind(op.elem) != Refusing && op.name in inherited && op.name !in x.View(op.elem).Of(op.pvt)
       && HasObject(x, op.elem, op.pvt)
    then Inherited(op.name)
    else PlainAnswer(kind, op, x.View(Target(op)))
  }

  /** A name is found as inherited exactly when it is read by name, is no key, and the node has the
      object to inherit it. */
  lemma InheritedExactly(kind: Elem -> Kind, inherited: set<Key>, op: Op, x: Index, name: Key)
    requires x.Valid()
    ensures AnswerOf(kind, inherited, op, x) == Inherited(name)
            <==> && op.Get? && op.name == name && name in inherited && kind(op.elem) != Refusing && op.elem in x.expando
                 && var e := x.cache[x.expando[op.elem]];
                    if op.pvt then e.pvt.Some? && name !in e.pvt.value else name !in e.user
  {
  }

  /** `getByName ? thisCache[ name ] : thisCache` */
  function Lookup(inherited: set<Key>, op: Op, thisCache: map<Key, Value>): Answer
    requires op.Get? || op.GetAll? || op.Put? || op.Merge?
  {
    if op.GetAll? || op.Merge? then All(thisCache)
    else if op.name in thisCache then Found(thisCache[op.name])
    else if op.name in inherited then Inherited(op.name) else Nothing
  }

  lemma AnswerIsLookup(kind: Elem -> Kind, inherited: set<Key>, op: Op, x: Index, thisCache: map<Key, Value>)
    requires x.Valid() && (op.Get? || op.GetAll? || op.Put? || op.Merge?) && kind(op.elem) != Refusing
    requires op.Get? ==> HasObject(x, op.elem, op.pvt)
    requires thisCache == PlainStep(kind, op, op.elem, x.View(op.elem)).Of(op.pvt)
    ensures Lookup(inherited, op, thisCache) == AnswerOf(kind, inherited, op, x)
  {
  }

  /** For every call that does not read an inherited name this is the plain map's answer. */
  predicate Agrees(inherited: set<Key>, op: Op, plain: Answer, actual: Answer) {
    actual == plain || (op.Get? && op.name in inherited && plain == Nothing && actual == Inherited(op.name))
  }

  class Data {
    const kind: Elem -> Kind
    /** The names every JavaScript object inherits. */
    const inherited: set<Key>
    /** `elem[ jQuery.expando ]`. */
    var expando: map<Elem, nat>
    var cache: map<nat, Entry>
    var uuid: nat
    ghost var owner: map<nat, Elem>

    ghost function Value(): Index
      reads this
    {
      Index(expando, cache, uuid, owner)
    }

    ghost predicate Valid()
      reads this
    {
      Sound(Value(), kind)
    }

    constructor (kinds: Elem -> Kind, inherited: set<Key>)
      ensures Valid() && kind == kinds && this.inherited == inherited && expando == map[]
    {
      this.inherited := inherited;
      kind := kinds;
      expando, cache, uuid, owner := map[], map[], 0, map[];
    }

    /** The part of `data` that finds or makes the entry of a node. */
    method Ensure(n: Elem) returns (id: nat)
      requires Valid() && kind(n) != Refusing
      modifies this
      ensures Valid() && n in expando && expando[n] == id
      ensures Value() == if n in old(expando) then old(Value()) else old(Value()).Fresh(n)
    {
      if n !in expando {
        uuid := uuid + 1;
        id := uuid;
        expando, cache, owner := expando[n := id], cache[id := Entry(map[], None)], owner[id := n];
      } else {
        id := expando[n];
      }
    }

    /** Replaces the entry of one node. */
    method Store(n: Elem, e: Entry)
      requires Valid() && n in expando
      modifies this`cache
      ensures Valid() && Value() == old(Value()).Replace(n, e)
    {
      cache := cache[expando[n] := e];
    }

    /** Deletes the entry and the expando of one node. */
    method Free(n: Elem)
      requires Valid() && n in expando
      modifies this
      ensures Valid() && Value() == old(Value()).Without(n)
    {
      cache, owner := cache - {expando[n]}, owner - {expando[n]};
      expando := expando - {n};
    }

    /** `jQuery.data`: reads by name leave nothing behind, everything else makes an entry. */
    method DataCall(op: Op) returns (answer: Answer)
      requires Valid() && (op.Get? || op.GetAll? || op.Put? || op.Merge?)
      modifies this
      ensures Valid()
      ensures Changed(old(Value()), Value(), op.elem, PlainStep(kind, op, op.elem, old(Value().View(op.elem))))
      ensures answer == AnswerOf(kind, inherited, op, old(Value()))
      ensures op.elem in expando <==> op.elem in old(expando) || (!op.Get? && kind(op.elem) != Refusing)
    {
      var n := op.elem;
      if kind(n) == Refusing {
        return Nothing;
      }
      if op.Get? && (n !in expando || (op.pvt && cache[expando[n]].pvt.None?)) {
        return Nothing;
      }
      answer := Access(op);
    }

    /** With an entry found or made: write, and answer from the map. */
    method Access(op: Op) returns (answer: Answer)
      requires Valid() && (op.Get? || op.GetAll? || op.Put? || op.Merge?) && kind(op.elem) != Refusing
      requires op.Get? ==> HasObject(Value(), op.elem, op.pvt)
      modifies this
      ensures Valid() && op.elem in expando
      ensures Changed(old(Value()), Value(), op.elem, PlainStep(kind, op, op.elem, old(Value().View(op.elem))))
      ensures answer == AnswerOf(kind, inherited, op, old(Value()))
    {
      var n := op.elem;
      ghost var x := Value();
      if n !in expando {
        FreshView(x, n);
      }
      var id := Ensure(n);
      var e := Written(cache[id], op);
      WrittenMaps(kind, cache[id], op);
      ReplaceView(Value(), n, e);
      Store(n, e);
      var thisCache := if op.pvt then e.pvt.value else e.user;
      AnswerIsLookup(kind, inherited, op, x, thisCache);
      answer := Lookup(inherited, op, thisCache);
    }

    /** `jQuery.removeData`.  An entry is given up when nothing is left in it; removing private
        data never leaves an empty entry behind. */
    method RemoveData(n: Elem, name: Option<Key>, pvt: bool)
      requires Valid()
      modifies this
      ensures Valid()
      ensures Changed(old(Value()), Value(), n, PlainStep(kind, Remove(n, name, pvt), n, old(Value().View(n))))
      ensures pvt && kind(n) != Refusing ==> (n in expando <==> Value().View(n) != NOTHING)
      ensures n !in old(expando) ==> n !in expando
    {
      if kind(n) == Refusing || n !in expando {
        return;
      }
      ghost var x := Value();
      var e := cache[expando[n]];
      if name.Some? {
        if !pvt || e.pvt.Some? {
          e := if pvt then e.(pvt := Some(e.pvt.value - {name.value})) else e.(user := e.user - {name.value});
          ReplaceView(x, n, e);
          Store(n, e);
          if (pvt && e.pvt.value != map[]) || (!pvt && (e.user != map[] || e.pvt.Some?)) {
            return;
          }
        }
      }
      if pvt {
        e := e.(pvt := None);
        ReplaceView(Value(), n, e);
        Store(n, e);
        if e.user != map[] {
          return;
        }
      }
      var internalCache := e.pvt;
      if internalCache.Some? {
        ReplaceView(Value(), n, Entry(map[], internalCache));
        Store(n, Entry(map[], internalCache));
      } else {
        WithoutView(Value(), n);
        Free(n);
      }
    }

    /** `jQuery.cleanData`: both maps of every node go, except on Flash objects, whose node name
        is skipped although they may hold data. */
    method CleanData(elems: seq<Elem>)
      requires Valid()
      modifies this
      ensures Valid()
      ensures forall n :: Value().View(n) == PlainStep(kind, Clean(elems), n, old(Value()).View(n))
      ensures forall n :: n in expando <==> n in old(expando) && !(n in elems && kind(n) == Ordinary)
    {
      ghost var x := Value();
      for i := 0 to |elems|
        invariant Valid()
        invariant forall n :: Value().View(n) == if n in elems[..i] && kind(n) == Ordinary then NOTHING else x.View(n)
        invariant forall n :: n in expando <==> n in x.expando && !(n in elems[..i] && kind(n) == Ordinary)
      {
        assert elems[..i + 1] == elems[..i] + [elems[i]];
        if kind(elems[i]) == Ordinary && elems[i] in expando {
          WithoutView(Value(), elems[i]);
          Free(elems[i]);
        }
      }
      assert elems[..|elems|] == elems;
    }

    method Perform(op: Op) returns (answer: Answer)
      requires Valid()
      modifies this
      ensures Valid()
      ensures forall n :: Value().View(n) == PlainStep(kind, op, n, old(Value()).View(n))
      ensures answer == AnswerOf(kind, inherited, op, old(Value()))
    {
      answer := Nothing;
      ghost var x := Value();
      match op
      case Remove(n, name, pvt) =>
        RemoveData(n, name, pvt);
        StepIsChange(kind, op, x, Value());
      case Clean(elems) =>
        CleanData(elems);
      case _ =>
        answer := DataCall(op);
        StepIsChange(kind, op, x, Value());
    }

    /** Any sequence of calls on a fresh cache answers as the plain maps do (a read of an inherited
        name may find what is inherited where the map has no such key), and a node carries an
        expando exactly when the cache has its entry. */
    method Replay(ops: seq<Op>) returns (answers: seq<Answer>)
      requires Valid() && expando == map[]
      modifies this
      ensures Valid() && Shows(kind, Value(), ops)
      ensures |answers| == |ops|
      ensures forall i | 0 <= i < |ops| :: Agrees(inherited, ops[i], AnswerAt(kind, ops, i), answers[i])
    {
      answers := [];
      for i := 0 to |ops|
        invariant Valid() && |answers| == i && Shows(kind, Value(), ops[..i])
        invariant forall k | 0 <= k < i :: Agrees(inherited, ops[k], AnswerAt(kind, ops, k), answers[k])
      {
        ghost var x := Value();
        var a := Perform(ops[i]);
        ShowsStep(kind, x, Value(), ops, i);
        answers := answers + [a];
      }
      assert ops[..|ops|] == ops;
    }
  }

  /** Every node shows what its two plain maps hold after `ops`. */
  ghost predicate Shows(kind: Elem -> Kind, x: Index, ops: seq<Op>)
    requires x.Valid()
  {
    forall n :: x.View(n) == PlainRun(kind, ops, n)
  }

  /** What the plain maps of its node answer to call `i`. */
  function AnswerAt(kind: Elem -> Kind, ops: seq<Op>, i: nat): Answer
    requires i < |ops|
  {
    PlainAnswer(kind, ops[i], PlainRun(kind, ops[..i], Target(ops[i])))
  }

  lemma ShowsStep(kind: Elem -> Kind, x: Index, y: Index, ops: seq<Op>, i: nat)
    requires x.Valid() && y.Valid() && i < |ops| && Shows(kind, x, ops[..i])
    requires forall n :: y.View(n) == PlainStep(kind, ops[i], n, x.View(n))
    ensures Shows(kind, y, ops[..i + 1])
  {
    assert ops[..i + 1][..i] == ops[..i];
  }

  lemma StepIsChange(kind: Elem -> Kind, op: Op, x: Index, y: Index)
    requires x.Valid() && y.Valid() && !op.Clean?
    requires Changed(x, y, op.elem, PlainStep(kind, op, op.elem, x.View(op.elem)))
    ensures forall n :: y.View(n) == PlainStep(kind, op, n, x.View(n))
  {
  }

  /** A call on one node, or on one of its two maps, leaves every other map alone; cleaning leaves
      the nodes that are not in the list. */
  lemma PlainStepIsLocal(kind: Elem -> Kind, op: Op, n: Elem, m: Maps)
    ensures op.Clean? && n !in op.elems ==> PlainStep(kind, op, n, m) == m
    ensures !op.Clean? && op.elem != n ==> PlainStep(kind, op, n, m) == m
    ensures !op.Clean? ==> PlainStep(kind, op, n, m).Of(!op.pvt) == m.Of(!op.pvt)
  {
  }

  // ---- what a history of calls leaves to be read ----

  /** The call sets a key of one of the two maps of node `n`. */
  predicate Sets(kind: Elem -> Kind, op: Op, n: Elem, name: Key, pvt: bool, value: Value) {
    && kind(n) != Refusing
    && (op == Put(n, name, value, pvt)
        || (op.Merge? && op.elem == n && op.pvt == pvt && name in op.values && op.values[name] == value))
  }

  /** The call takes it away: the key, the whole map, or all data of the node. */
  predicate Erases(kind: Elem -> Kind, op: Op, n: Elem, name: Key, pvt: bool) {
    || (kind(n) != Refusing && (op == Remove(n, Some(name), pvt) || op == Remove(n, None, pvt)))
    || (kind(n) == Ordinary && op.Clean? && n in op.elems)
  }

  ghost predicate Touches(kind: Elem -> Kind, op: Op, n: Elem, name: Key, pvt: bool) {
    Erases(kind, op, n, name, pvt) || exists value :: Sets(kind, op, n, name, pvt, value)
  }

  /** After a call that sets the key its value is read, after one that takes it away nothing is, and
      after any other what was read before. */
  lemma ReadAfterCall(kind: Elem -> Kind, op: Op, n: Elem, name: Key, pvt: bool, m: Maps)
    ensures forall value | Sets(kind, op, n, name, pvt, value) ::
              PlainAnswer(kind, Get(n, name, pvt), PlainStep(kind, op, n, m)) == Found(value)
    ensures Erases(kind, op, n, name, pvt) ==>
              PlainAnswer(kind, Get(n, name, pvt), PlainStep(kind, op, n, m)) == Nothing
    ensures !Touches(kind, op, n, name, pvt) ==>
              PlainAnswer(kind, Get(n, name, pvt), PlainStep(kind, op, n, m)) == PlainAnswer(kind, Get(n, name, pvt), m)
  {
    if op.Merge? && op.elem == n && op.pvt == pvt && name in op.values && kind(n) != Refusing {
      assert Sets(kind, op, n, name, pvt, op.values[name]);
    }
    if op.Put? && op.elem == n && op.pvt == pvt && op.name == name && kind(n) != Refusing {
      assert Sets(kind, op, n, name, pvt, op.value);
    }
  }

  /** What is read is what the last call that touched the key left there. */
  lemma {:induction false} LastCallIsRead(kind: Elem -> Kind, ops: seq<Op>, n: Elem, name: Key, pvt: bool, last: nat)
    requires last <= |ops| && forall i | last <= i < |ops| :: !Touches(kind, ops[i], n, name, pvt)
    ensures last == 0 ==> PlainAnswer(kind, Get(n, name, pvt), PlainRun(kind, ops, n)) == Nothing
    ensures last > 0 && Erases(kind, ops[last - 1], n, name, pvt) ==>
              PlainAnswer(kind, Get(n, name, pvt), PlainRun(kind, ops, n)) == Nothing
    ensures last > 0 ==> forall value | Sets(kind, ops[last - 1], n, name, pvt, value) ::
              PlainAnswer(kind, Get(n, name, pvt), PlainRun(kind, ops, n)) == Found(value)
    decreases |ops|
  {
    if ops != [] {
      var front := ops[..|ops| - 1];
      ReadAfterCall(kind, ops[|ops| - 1], n, name, pvt, PlainRun(kind, front, n));
      if last < |ops| {
        LastCallIsRead(kind, front, n, name, pvt, last);
      }
    }
  }

  /** A call without a name answers all that calls with a name would; a call that writes answers
      what is there afterwards. */
  lemma AnswersTell(kind: Elem -> Kind, n: Elem, pvt: bool, m: Maps)
    requires kind(n) != Refusing
    ensures exists values :: PlainAnswer(kind, GetAll(n, pvt), m) == All(values)
              && forall name :: PlainAnswer(kind, Get(n, name, pvt), m)
                                == if name in values then Found(values[name]) else Nothing
    ensures forall name, value ::
              PlainAnswer(kind, Put(n, name, value, pvt), m)
              == PlainAnswer(kind, Get(n, name, pvt), PlainStep(kind, Put(n, name, value, pvt), n, m))
    ensures forall values ::
              PlainAnswer(kind, Merge(n, values, pvt), m)
              == PlainAnswer(kind, GetAll(n, pvt), PlainStep(kind, Merge(n, values, pvt), n, m))
  {
    assert PlainAnswer(kind, GetAll(n, pvt), m) == All(m.Of(pvt));
  }

  /** A node that refuses an expando keeps and answers nothing. */
  lemma {:induction false} RefusingHoldsNothing(kind: Elem -> Kind, ops: seq<Op>, n: Elem, op: Op)
    requires kind(n) == Refusing
    ensures PlainRun(kind, ops, n) == NOTHING
    ensures op.Clean? || (Target(op) == n ==> PlainAnswer(kind, op, NOTHING) == Nothing)
  {
    if ops != [] {
      RefusingHoldsNothing(kind, ops[..|ops| - 1], n, op);
    }
  }
}
