/** Sizzle.filter for a list of per-element simple filters: it copies or works in place, takes the
    filters in the order of their types, and leaves early when nothing is left. */
module Filter {
  import opened Sequences

  type Node = int

  /** An entry of the array: an element, or the false a failed one was replaced by. */
  datatype Entry = Hole | Item(node: Node)

  /** One simple filter. With a CLASS selector the preFilter does the work itself, and says that
      something was found whatever it found. */
  datatype Simple = Simple(test: Node -> bool, inPreFilter: bool)

  /** `not ^ !!found` for every filter of the list. */
  ghost predicate Passes(filters: seq<Simple>, negate: bool, n: Node) {
    forall f | f in filters :: f.test(n) != negate
  }

  ghost function Failing(filters: seq<Simple>, negate: bool): Node -> bool {
    n => !Passes(filters, negate, n)
  }

  /** The elements that pass, in order. */
  ghost function Passing(filters: seq<Simple>, negate: bool, s: seq<Node>): seq<Node> {
    Keep(s, Failing(filters, negate))
  }

  /** The array with its holes dropped. */
  function Items(s: seq<Entry>): seq<Node> {
    if s == [] then []
    else
      var rest := Items(s[..|s| - 1]);
      if s[|s| - 1].Item? then rest + [s[|s| - 1].node] else rest
  }

  ghost function Punch(filters: seq<Simple>, negate: bool, e: Entry): Entry {
    if e.Item? && !Passes(filters, negate, e.node) then Hole else e
  }

  ghost function Punched(filters: seq<Simple>, negate: bool, s: seq<Entry>): (r: seq<Entry>)
    ensures |r| == |s|
    ensures forall i | 0 <= i < |s| :: r[i] == Punch(filters, negate, s[i])
  {
    seq(|s|, i requires 0 <= i < |s| => Punch(filters, negate, s[i]))
  }

  // ---- lists of filters ----

  lemma ItemsSnoc(s: seq<Entry>, e: Entry)
    ensures Items(s + [e]) == if e.Item? then Items(s) + [e.node] else Items(s)
  {
    assert (s + [e])[..|s|] == s;
  }

  lemma PassingTwice(a: seq<Simple>, f: Simple, negate: bool, s: seq<Node>)
    ensures Passing([f], negate, Passing(a, negate, s)) == Passing(a + [f], negate, s)
  {
    forall n ensures Failing(a + [f], negate)(n) == (Failing(a, negate)(n) || Failing([f], negate)(n)) {
      PassesBoth(a, f, negate, n);
    }
    KeepTwice(s, Failing(a, negate), Failing([f], negate), Failing(a + [f], negate));
  }

  lemma PassesBoth(a: seq<Simple>, f: Simple, negate: bool, n: Node)
    ensures Passes(a + [f], negate, n) <==> Passes(a, negate, n) && Passes([f], negate, n)
  {
    assert f in [f];
  }

  /** An element is kept when it passes every filter, or under negation fails every filter. */
  lemma PassingExactly(filters: seq<Simple>, negate: bool, s: seq<Node>, n: Node)
    ensures n in Passing(filters, negate, s) <==>
            n in s && if negate then forall f | f in filters :: !f.test(n) else forall f | f in filters :: f.test(n)
  {
    KeepMembers(s, Failing(filters, negate), n);
  }

  /** Part by part, so that those kept stay in order and as often as they were there. */
  lemma PassingConcat(filters: seq<Simple>, negate: bool, s: seq<Node>, t: seq<Node>)
    ensures Passing(filters, negate, s + t) == Passing(filters, negate, s) + Passing(filters, negate, t)
  {
    KeepConcat(s, t, Failing(filters, negate));
  }

  /** More filters keep no more; the same filters in another order keep the same. */
  lemma {:induction false} PassingFewer(a: seq<Simple>, b: seq<Simple>, negate: bool, s: seq<Node>)
    requires forall f | f in a :: f in b
    ensures Passing(a, negate, s) == [] ==> Passing(b, negate, s) == []
    ensures (forall f | f in b :: f in a) ==> Passing(a, negate, s) == Passing(b, negate, s)
  {
    if s != [] {
      PassingFewer(a, b, negate, s[..|s| - 1]);
    }
  }

  lemma {:induction false} PunchedKeeps(filters: seq<Simple>, negate: bool, s: seq<Entry>)
    ensures Items(Punched(filters, negate, s)) == Passing(filters, negate, Items(s))
  {
    if s != [] {
      var init, e := s[..|s| - 1], s[|s| - 1];
      PunchedKeeps(filters, negate, init);
      assert Punched(filters, negate, s) == Punched(filters, negate, init) + [Punch(filters, negate, e)];
      ItemsSnoc(Punched(filters, negate, init), Punch(filters, negate, e));
      if e.Item? {
        KeepSnoc(Items(init), e.node, Failing(filters, negate));
      }
    }
  }

  lemma {:induction false} NoItems(s: seq<Entry>)
    ensures Items(s) == [] <==> forall i | 0 <= i < |s| :: s[i].Hole?
  {
    if s != [] {
      NoItems(s[..|s| - 1]);
    }
  }

  /** A negated list keeps what fails every filter. That is what fails the list as a whole exactly
      when no element passes some filters and fails others. */
  lemma {:induction false} NegatedExactly(filters: seq<Simple>, s: seq<Node>)
    requires filters != []
    ensures (forall n | n in s :: Passes(filters, true, n) <==> !Passes(filters, false, n))
            <==> !exists n, f, g :: n in s && f in filters && g in filters && f.test(n) && !g.test(n)
  {
    if n, f, g :| n in s && f in filters && g in filters && f.test(n) && !g.test(n) {
      assert !Passes(filters, true, n) && !Passes(filters, false, n);
    }
    assert filters[0] in filters;
  }

  // ---- the function ----

  /** The passing elements of `cur` have been copied. */
  ghost predicate Copied(filter: Simple, negate: bool, cur: seq<Entry>, result: seq<Entry>) {
    Items(result) == Passing([filter], negate, Items(cur)) && forall k | 0 <= k < |result| :: result[k].Item?
  }

  /** One filter, copying: `saw` tells whether `found` was set at all. */
  method CopyPass(filter: Simple, cur: seq<Entry>, negate: bool) returns (result: seq<Entry>, saw: bool)
    ensures Copied(filter, negate, cur, result)
    ensures saw <==> Items(cur) != []
  {
    result, saw := [], false;
    for i := 0 to |cur|
      invariant Copied(filter, negate, cur[..i], result)
      invariant saw <==> Items(cur[..i]) != []
    {
      assert cur[..i + 1] == cur[..i] + [cur[i]];
      ItemsSnoc(cur[..i], cur[i]);
      result := CopyOne(filter, cur[i], negate, cur[..i], result);
      saw := saw || cur[i].Item?;
    }
    assert cur[..|cur|] == cur;
  }

  /** One turn of that loop. */
  method CopyOne(filter: Simple, e: Entry, negate: bool, ghost before: seq<Entry>, result: seq<Entry>)
    returns (next: seq<Entry>)
    requires Copied(filter, negate, before, result)
    ensures Copied(filter, negate, before + [e], next)
  {
    next := result;
    ItemsSnoc(before, e);
    if e.Item? {
      var pass := filter.test(e.node) != negate;
      KeepSnoc(Items(before), e.node, Failing([filter], negate));
      assert Passes([filter], negate, e.node) <==> pass;
      if pass {
        ItemsSnoc(result, e);
        next := result + [e];
      }
    }
  }

  /** One filter, in place. */
  method InPlacePass(filter: Simple, cur: array<Entry>, negate: bool) returns (anyFound: bool, saw: bool)
    modifies cur
    ensures cur[..] == Punched([filter], negate, old(cur[..]))
    ensures saw <==> Items(old(cur[..])) != []
    ensures anyFound <==> Items(cur[..]) != []
  {
    ghost var before := cur[..];
    anyFound, saw := false, false;
    for i := 0 to cur.Length
      invariant forall k | i <= k < cur.Length :: cur[k] == before[k]
      invariant forall k | 0 <= k < i :: cur[k] == Punch([filter], negate, before[k])
      invariant saw <==> exists k :: 0 <= k < i && before[k].Item?
      invariant anyFound <==> exists k :: 0 <= k < i && cur[k].Item?
    {
      if cur[i].Item? {
        saw := true;
        var pass := filter.test(cur[i].node) != negate;
        assert Passes([filter], negate, cur[i].node) <==> pass;
        if pass {
          anyFound := true;
        } else {
          cur[i] := Hole;
        }
      }
    }
    NoItems(before);
    NoItems(cur[..]);
  }

  /** One filter, either way. */
  method OnePass(filter: Simple, elems: array<Entry>, cur: seq<Entry>, inplace: bool, negate: bool)
    returns (next: seq<Entry>, anyFound: bool, saw: bool)
    requires inplace ==> cur == elems[..]
    modifies elems
    ensures Items(next) == Passing([filter], negate, Items(cur))
    ensures saw <==> Items(cur) != []
    ensures anyFound <==> Items(next) != []
    ensures inplace ==> elems[..] == next == Punched([filter], negate, cur)
    ensures !inplace ==> elems[..] == old(elems[..])
  {
    if inplace {
      anyFound, saw := InPlacePass(filter, elems, negate);
      next := elems[..];
      PunchedKeeps([filter], negate, cur);
    } else {
      next, saw := CopyPass(filter, cur, negate);
      anyFound := next != [];
      NoItems(next);
    }
  }

  ghost predicate Splits(all: seq<Simple>, done: seq<Simple>, rest: seq<Simple>) {
    forall f :: f in all <==> f in done || f in rest
  }

  lemma SplitsStep(all: seq<Simple>, done: seq<Simple>, rest: seq<Simple>, i: nat)
    requires i < |rest| && Splits(all, done, rest)
    ensures Splits(all, done + [rest[i]], rest[..i] + rest[i + 1..])
  {
    forall f ensures f in rest <==> f == rest[i] || f in rest[..i] + rest[i + 1..] {
      assert rest == rest[..i] + [rest[i]] + rest[i + 1..];
    }
  }

  /** Where the filters in `done` have been applied. */
  ghost predicate Reached(done: seq<Simple>, inplace: bool, negate: bool, before: seq<Entry>, cur: seq<Entry>,
                          now: seq<Entry>) {
    && Items(cur) == Passing(done, negate, Items(before))
    && now == (if inplace then Punched(done, negate, before) else before)
    && (inplace ==> cur == now)
  }

  lemma ReachedStep(done: seq<Simple>, f: Simple, inplace: bool, negate: bool, before: seq<Entry>, cur: seq<Entry>,
                    next: seq<Entry>)
    requires inplace ==> cur == Punched(done, negate, before) && next == Punched([f], negate, cur)
    requires Items(cur) == Passing(done, negate, Items(before)) && Items(next) == Passing([f], negate, Items(cur))
    ensures Reached(done + [f], inplace, negate, before, next, if inplace then next else before)
  {
    PassingTwice(done, f, negate, Items(before));
    if inplace {
      forall i | 0 <= i < |before| ensures next[i] == Punch(done + [f], negate, before[i]) {
        if before[i].Item? {
          PassesBoth(done, f, negate, before[i].node);
        }
      }
    }
  }

  /** With all filters applied, or with nothing left, the work is done. */
  lemma ReachedEnd(filters: seq<Simple>, done: seq<Simple>, rest: seq<Simple>, inplace: bool, negate: bool,
                   before: seq<Entry>, cur: seq<Entry>, now: seq<Entry>)
    requires Splits(filters, done, rest) && Reached(done, inplace, negate, before, cur, now)
    requires rest == [] || Items(cur) == []
    ensures Items(cur) == Passing(filters, negate, Items(before))
    ensures now == if inplace then Punched(filters, negate, before) else before
  {
    PassingFewer(done, filters, negate, Items(before));
    if inplace {
      NoItems(cur);
      forall i | 0 <= i < |before| ensures now[i] == Punch(filters, negate, before[i]) {
        assert now[i] == Punch(done, negate, before[i]);
      }
    }
  }

  /** The types in their order, until a filter is taken: `found` keeps its value from one filter to
      the next, and as long as it was never set no filter is taken. */
  method TakeOne(rest: seq<Simple>, elems: array<Entry>, cur: seq<Entry>, inplace: bool, negate: bool, found: bool)
    returns (i: nat, next: seq<Entry>, anyFound: bool, taken: bool)
    requires inplace ==> cur == elems[..]
    modifies elems
    ensures taken ==> i < |rest| && Items(next) == Passing([rest[i]], negate, Items(cur))
    ensures taken && inplace ==> elems[..] == next == Punched([rest[i]], negate, cur)
    ensures taken && !anyFound ==> Items(next) == []
    ensures !taken ==> rest == [] || Items(cur) == []
    ensures !taken || !inplace ==> elems[..] == old(elems[..])
  {
    i, next, anyFound, taken := 0, cur, false, false;
    while i < |rest|
      invariant i <= |rest| && elems[..] == old(elems[..])
      invariant i > 0 ==> Items(cur) == []
    {
      var saw;
      next, anyFound, saw := OnePass(rest[i], elems, cur, inplace, negate);
      anyFound := anyFound || rest[i].inPreFilter;
      if found || saw || rest[i].inPreFilter {
        return i, next, anyFound, true;
      }
      NothingToPunch([rest[i]], negate, cur);
      i := i + 1;
    }
    return i, next, anyFound, false;
  }

  lemma NothingToPunch(filters: seq<Simple>, negate: bool, s: seq<Entry>)
    requires Items(s) == []
    ensures Punched(filters, negate, s) == s
  {
    NoItems(s);
  }

  /** The elements that pass all filters, in order: as the result when copying, and when in place
      as what is left in the array once its holes are dropped. */
  method Filter(filters: seq<Simple>, elems: array<Entry>, inplace: bool, negate: bool) returns (kept: seq<Entry>)
    modifies elems
    ensures Items(kept) == Passing(filters, negate, Items(old(elems[..])))
    ensures inplace ==> elems[..] == Punched(filters, negate, old(elems[..]))
    ensures !inplace ==> elems[..] == old(elems[..])
  {
    ghost var before := elems[..];
    ghost var done: seq<Simple> := [];
    var rest, cur, found := filters, elems[..], false;
    KeepAll(Items(before), Failing([], negate));
    while rest != [] && elems.Length > 0
      invariant Splits(filters, done, rest) && Reached(done, inplace, negate, before, cur, elems[..])
      decreases |rest|
    {
      var i, next, anyFound, taken := TakeOne(rest, elems, cur, inplace, negate, found);
      if !taken {
        ReachedEnd(filters, done, rest, inplace, negate, before, cur, elems[..]);
        return cur;
      }
      ReachedStep(done, rest[i], inplace, negate, before, cur, next);
      SplitsStep(filters, done, rest, i);
      done := done + [rest[i]];
      cur, found, rest := next, true, rest[..i] + rest[i + 1..];
      if !anyFound {
        ReachedEnd(filters, done, rest, inplace, negate, before, cur, elems[..]);
        return [];
      }
    }
    ReachedEnd(filters, done, rest, inplace, negate, before, cur, elems[..]);
    kept := cur;
  }
}
