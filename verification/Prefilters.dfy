/** jQuery's inspectPrefiltersOrTransports: it follows redirections between data types, and ends
    because no type is inspected twice. */
module Prefilters {
  import opened Sequences

  /** What a registered function gives back; anything falsy is `Nothing`. */
  datatype Answer = Nothing | Redirect(dataType: string) | Transport(id: int)

  /** The call of the function at `index` in the list of `dataType`. */
  datatype Call = Call(dataType: string, index: nat)

  /** The lengths of the lists, and an answer that may depend on all calls so far. */
  datatype Setup = Setup(lists: map<string, nat>, answer: seq<Call> -> Answer)

  /** `options.dataTypes`, `inspected` and the calls made. */
  datatype Trail = Trail(dataTypes: seq<string>, inspected: set<string>, calls: seq<Call>)

  const CATCHALL: string := "*"

  function Length(setup: Setup, dataType: string): nat {
    if dataType in setup.lists then setup.lists[dataType] else 0
  }

  function Row(dataType: string, n: nat): (r: seq<Call>)
    ensures |r| == n
  {
    if n == 0 then [] else Row(dataType, n - 1) + [Call(dataType, n - 1)]
  }

  /** The calls that went to one list. */
  function Only(calls: seq<Call>, dataType: string): seq<Call> {
    Keep(calls, (c: Call) => c.dataType != dataType)
  }

  /** The types that calls were answered with. */
  function Redirected(setup: Setup, calls: seq<Call>): set<string> {
    if calls == [] then {}
    else
      var rest := Redirected(setup, calls[..|calls| - 1]);
      match setup.answer(calls)
      case Redirect(t) => rest + {t}
      case _ => rest
  }

  lemma OnlySnoc(calls: seq<Call>, c: Call, dataType: string)
    ensures Only(calls + [c], dataType)
            == if c.dataType == dataType then Only(calls, dataType) + [c] else Only(calls, dataType)
  {
    KeepSnoc(calls, c, (c: Call) => c.dataType != dataType);
  }

  lemma OnlyItsList(calls: seq<Call>, c: Call)
    ensures forall u :: Only(calls + [c], u) == if u == c.dataType then Only(calls, u) + [c] else Only(calls, u)
  {
    forall u ensures Only(calls + [c], u) == if u == c.dataType then Only(calls, u) + [c] else Only(calls, u) {
      OnlySnoc(calls, c, u);
    }
  }

  lemma RedirectedSnoc(setup: Setup, calls: seq<Call>, c: Call)
    ensures Redirected(setup, calls + [c])
            == Redirected(setup, calls) + match setup.answer(calls + [c]) case Redirect(t) => {t} case _ => {}
  {
    assert (calls + [c])[..|calls|] == calls;
  }

  /** The functions of a list in their order. */
  lemma {:induction false} RowAt(dataType: string, n: nat, k: nat)
    requires k < n
    ensures Row(dataType, n)[k] == Call(dataType, k)
  {
    if k < n - 1 {
      RowAt(dataType, n - 1, k);
    }
  }

  /** A type is redirected to when some call was answered with it. */
  lemma {:induction false} RedirectedExactly(setup: Setup, calls: seq<Call>, dataType: string)
    ensures dataType in Redirected(setup, calls)
            <==> exists k :: 0 < k <= |calls| && setup.answer(calls[..k]) == Redirect(dataType)
  {
    if calls != [] {
      var front := calls[..|calls| - 1];
      RedirectedExactly(setup, front, dataType);
      assert forall k | 0 < k < |calls| :: front[..k] == calls[..k];
      assert calls[..|calls|] == calls;
    }
  }

  /** Only inspected types were called, and only the redirection being followed is not inspected. */
  ghost predicate Kept(setup: Setup, t: Trail, pending: set<string>) {
    && (forall u :: u !in t.inspected ==> Only(t.calls, u) == [])
    && Redirected(setup, t.calls) <= t.inspected + pending
  }

  function Added(a: Trail, b: Trail): seq<string>
    requires |a.dataTypes| <= |b.dataTypes|
  {
    b.dataTypes[..|b.dataTypes| - |a.dataTypes|]
  }

  predicate Distinct(s: seq<string>) {
    forall i, j :: 0 <= i < j < |s| ==> s[i] != s[j]
  }

  /** New types are put in front, each once, and each of them is a type inspected since. */
  predicate Unshifted(a: Trail, b: Trail, from: string) {
    && |a.dataTypes| <= |b.dataTypes| && b.dataTypes == Added(a, b) + a.dataTypes
    && Distinct(Added(a, b))
    && (forall t | t in Added(a, b) :: t in b.inspected - a.inspected && t != from)
    && (forall t | t in b.inspected - a.inspected :: t != from && t != CATCHALL ==> t in Added(a, b))
  }

  /** Each list of a type inspected since ran completely, in order and once; the others did not. */
  ghost predicate Ran(setup: Setup, a: Trail, b: Trail) {
    forall u ::
      Only(b.calls, u) == if u in b.inspected - a.inspected then Row(u, Length(setup, u)) else Only(a.calls, u)
  }

  /** Executing only: the types inspected are the first, those redirected to, and the catchall. */
  ghost predicate Executed(setup: Setup, a: Trail, b: Trail, from: string) {
    && Ran(setup, a, b) && Unshifted(a, b, from) && Redirected(setup, a.calls) <= Redirected(setup, b.calls)
    && b.inspected == a.inspected + {from, CATCHALL} + Redirected(setup, b.calls)
  }

  /** The functions a search for a transport asks. */
  function Candidates(setup: Setup, t: Trail, from: string): seq<Call> {
    Row(from, Length(setup, from))
    + if from == CATCHALL || CATCHALL in t.inspected then [] else Row(CATCHALL, Length(setup, CATCHALL))
  }

  /** Its own functions first, then those of the catchall, each list in its order. */
  lemma CandidatesInOrder(setup: Setup, t: Trail, from: string, k: nat)
    requires k < |Candidates(setup, t, from)|
    ensures Candidates(setup, t, from)[k]
            == if k < Length(setup, from) then Call(from, k) else Call("*", k - Length(setup, from))
    ensures from != "*" && "*" !in t.inspected
            ==> |Candidates(setup, t, from)| == Length(setup, from) + Length(setup, "*")
  {
    if k < Length(setup, from) {
      RowAt(from, Length(setup, from), k);
    } else {
      RowAt(CATCHALL, Length(setup, CATCHALL), k - Length(setup, from));
    }
  }

  /** No call after the first `n`, but perhaps the last, gave a transport. */
  predicate NoneBefore(setup: Setup, n: nat, calls: seq<Call>) {
    forall k :: n < k < |calls| ==> !setup.answer(calls[..k]).Transport?
  }

  lemma NoneBeforeSnoc(setup: Setup, n: nat, calls: seq<Call>, c: Call)
    requires n <= |calls| && NoneBefore(setup, n, calls) && (n < |calls| ==> !setup.answer(calls).Transport?)
    ensures NoneBefore(setup, n, calls + [c])
  {
    forall k | n < k < |calls + [c]| ensures !setup.answer((calls + [c])[..k]).Transport? {
      assert (calls + [c])[..k] == calls[..k];
      assert calls[..|calls|] == calls;
    }
  }

  /** The list of `from` alone was searched. */
  predicate SearchedList(setup: Setup, a: Trail, b: Trail, from: string, selection: Answer) {
    && b.calls <= a.calls + Row(from, Length(setup, from)) && a.calls <= b.calls
    && NoneBefore(setup, |a.calls|, b.calls)
    && (if selection.Transport? then |a.calls| < |b.calls| && setup.answer(b.calls) == selection
        else selection == Nothing && b.calls == a.calls + Row(from, Length(setup, from))
             && (|a.calls| < |b.calls| ==> !setup.answer(b.calls).Transport?))
  }

  lemma SearchJoined(setup: Setup, a: Trail, mid: Trail, b: Trail, from: string, selection: Answer)
    requires SearchedList(setup, a, mid, from, Nothing) && from in mid.inspected && CATCHALL !in mid.inspected
    requires a.inspected <= mid.inspected && mid.dataTypes == a.dataTypes
    requires Searched(setup, mid, b, CATCHALL, selection)
    ensures Searched(setup, a, b, from, selection)
  {
    var rest := Row(CATCHALL, Length(setup, CATCHALL));
    assert a.calls + Candidates(setup, a, from) == mid.calls + rest;
    assert mid.calls + Candidates(setup, mid, CATCHALL) == mid.calls + rest;
    forall k | |a.calls| < k < |b.calls| ensures !setup.answer(b.calls[..k]).Transport? {
      if k <= |mid.calls| {
        assert b.calls[..k] == mid.calls[..k] && mid.calls[..|mid.calls|] == mid.calls;
      }
    }
    if |b.calls| == |mid.calls| {
      assert b.calls == mid.calls;
    }
  }

  /** Searching: the candidates are asked in order, up to the first transport. */
  predicate Searched(setup: Setup, a: Trail, b: Trail, from: string, selection: Answer) {
    && b.dataTypes == a.dataTypes
    && b.calls <= a.calls + Candidates(setup, a, from) && a.calls <= b.calls
    && NoneBefore(setup, |a.calls|, b.calls)
    && (if selection.Transport? then |a.calls| < |b.calls| && setup.answer(b.calls) == selection
        else selection == Nothing && b.calls == a.calls + Candidates(setup, a, from)
             && (|a.calls| < |b.calls| ==> !setup.answer(b.calls).Transport?))
  }

  // ---- one list, executing only ----

  /** In the list of `from`, with `i` functions called. */
  ghost predicate Partly(setup: Setup, a: Trail, t: Trail, from: string, i: nat) {
    && PartlyRan(setup, a, t, from, i) && Unshifted(a, t, from)
    && Redirected(setup, a.calls) <= Redirected(setup, t.calls)
    && a.inspected + {from} + Redirected(setup, t.calls) <= t.inspected
    && t.inspected <= a.inspected + {from, CATCHALL} + Redirected(setup, t.calls)
  }

  ghost predicate PartlyRan(setup: Setup, a: Trail, t: Trail, from: string, i: nat) {
    from !in a.inspected
    && forall u :: Only(t.calls, u) == if u == from then Row(from, i)
                                       else if u in t.inspected - a.inspected then Row(u, Length(setup, u))
                                       else Only(a.calls, u)
  }

  lemma Entered(setup: Setup, a: Trail, from: string)
    requires Kept(setup, a, {from}) && from !in a.inspected
    ensures Partly(setup, a, a.(inspected := a.inspected + {from}), from, 0)
  {
    assert a.dataTypes == [] + a.dataTypes;
  }

  function Asked(t: Trail, from: string, i: nat): Trail {
    t.(calls := t.calls + [Call(from, i)])
  }

  lemma AskedStep(setup: Setup, a: Trail, t: Trail, from: string, i: nat)
    requires Partly(setup, a, t, from, i)
    requires var answer := setup.answer(t.calls + [Call(from, i)]); answer.Redirect? ==> answer.dataType in t.inspected
    ensures Partly(setup, a, Asked(t, from, i), from, i + 1)
  {
    var c := Call(from, i);
    RedirectedSnoc(setup, t.calls, c);
    OnlyItsList(t.calls, c);
  }

  function Unshift(t: Trail, dataType: string): Trail {
    t.(dataTypes := [dataType] + t.dataTypes)
  }

  lemma DistinctJoined(x: seq<string>, y: seq<string>)
    requires Distinct(x) && Distinct(y) && forall s | s in x :: s !in y
    ensures Distinct(x + y)
  {
    forall i, j | 0 <= i < j < |x + y| ensures (x + y)[i] != (x + y)[j] {
      if i < |x| <= j {
        assert x[i] in x && y[j - |x|] in y;
      }
    }
  }

  lemma AddedJoined(a: Trail, t: Trail, from: string, other: string, b: Trail)
    requires Unshifted(a, t, from) && from in t.inspected && other !in t.inspected
    requires a.inspected <= t.inspected <= b.inspected
    requires Unshifted(Unshift(t, other), b, other) && other in b.inspected
    ensures Unshifted(a, b, from)
  {
    var mid := Unshift(t, other);
    assert Added(a, b) == Added(mid, b) + ([other] + Added(a, t));
    DistinctJoined([other], Added(a, t));
    DistinctJoined(Added(mid, b), [other] + Added(a, t));
  }

  lemma AddedByCatchall(a: Trail, t: Trail, from: string, b: Trail)
    requires Unshifted(a, t, from) && from in t.inspected && a.inspected <= t.inspected <= b.inspected
    requires Unshifted(t, b, CATCHALL)
    ensures Unshifted(a, b, from)
  {
    assert Added(a, b) == Added(t, b) + Added(a, t);
    DistinctJoined(Added(t, b), Added(a, t));
  }

  lemma RedirectStep(setup: Setup, a: Trail, t: Trail, from: string, i: nat, b: Trail)
    requires Partly(setup, a, t, from, i)
    requires var answer := setup.answer(t.calls + [Call(from, i)]); answer.Redirect? && answer.dataType !in t.inspected
    requires var other := setup.answer(t.calls + [Call(from, i)]).dataType;
             Executed(setup, Unshift(Asked(t, from, i), other), b, other)
    ensures Partly(setup, a, b, from, i + 1)
  {
    var c := Call(from, i);
    RedirectedSnoc(setup, t.calls, c);
    var other := setup.answer(t.calls + [c]).dataType;
    OnlyItsList(t.calls, c);
    AddedJoined(a, Asked(t, from, i), from, other, b);
  }

  lemma Finished(setup: Setup, a: Trail, t: Trail, from: string)
    requires Partly(setup, a, t, from, Length(setup, from)) && CATCHALL in t.inspected
    ensures Executed(setup, a, t, from)
  {
  }

  lemma CatchallStep(setup: Setup, a: Trail, t: Trail, from: string, b: Trail)
    requires Partly(setup, a, t, from, Length(setup, from)) && CATCHALL !in t.inspected
    requires Executed(setup, t, b, CATCHALL)
    ensures Executed(setup, a, b, from)
  {
    AddedByCatchall(a, t, from, b);
  }

  lemma PartlyKept(setup: Setup, a: Trail, t: Trail, from: string, i: nat)
    requires Partly(setup, a, t, from, i) && Kept(setup, a, {from})
    ensures Kept(setup, t, {})
  {
  }

  lemma RedirectKept(setup: Setup, t: Trail, c: Call, other: string)
    requires Kept(setup, t, {}) && c.dataType in t.inspected
    requires setup.answer(t.calls + [c]) == Redirect(other)
    ensures Kept(setup, Trail([other] + t.dataTypes, t.inspected, t.calls + [c]), {other})
  {
    RedirectedSnoc(setup, t.calls, c);
    forall u | u !in t.inspected ensures Only(t.calls + [c], u) == [] {
      OnlySnoc(t.calls, c, u);
    }
  }

  // ---- the function ----

  class Inspector {
    const setup: Setup
    var dataTypes: seq<string>
    var inspected: set<string>
    var calls: seq<Call>

    constructor (setup: Setup, dataTypes: seq<string>)
      ensures this.setup == setup && Value() == Trail(dataTypes, {}, [])
    {
      this.setup, this.dataTypes, this.inspected, this.calls := setup, dataTypes, {}, [];
    }

    ghost function Value(): Trail
      reads this
    {
      Trail(dataTypes, inspected, calls)
    }

    ghost function Unseen(): set<string>
      reads this
    {
      setup.lists.Keys + {CATCHALL} - inspected
    }

    /** Ends because `inspected` grows: a type with a list counts twice, so that one without a
        list may still be followed by the catchall. */
    ghost function Measure(from: string): nat
      reads this
    {
      2 * |Unseen()| + if from in setup.lists || from == CATCHALL then 0 else 1
    }

    method InspectExecuting(from: string)
      requires from !in inspected && Kept(setup, Value(), {from})
      modifies this
      ensures Executed(setup, old(Value()), Value(), from)
      decreases Measure(from), 0
    {
      ghost var a := Value();
      Entered(setup, a, from);
      Enter(from);
      RunList(from, a);
      InspectCatchall(from, a);
    }

    /** The end of the function: the catchall, unless it was inspected. */
    method InspectCatchall(from: string, ghost a: Trail)
      requires Partly(setup, a, Value(), from, Length(setup, from)) && Kept(setup, a, {from})
      modifies this
      ensures Executed(setup, a, Value(), from)
      decreases 2 * |Unseen()|, 2
    {
      ghost var t := Value();
      if CATCHALL !in inspected {
        PartlyKept(setup, a, t, from, Length(setup, from));
        InspectExecuting(CATCHALL);
        CatchallStep(setup, a, t, from, Value());
      } else {
        Finished(setup, a, t, from);
      }
    }

    method RunList(from: string, ghost a: Trail)
      requires Partly(setup, a, Value(), from, 0) && Kept(setup, a, {from})
      modifies this
      ensures Partly(setup, a, Value(), from, Length(setup, from)) && |Unseen()| <= old(|Unseen()|)
      decreases 2 * |Unseen()| + if from in setup.lists then 1 else 0, 2
    {
      var length := Length(setup, from);
      var i := 0;
      while i < length
        invariant i <= length
        invariant Partly(setup, a, Value(), from, i)
        invariant |Unseen()| <= old(|Unseen()|)
      {
        Ask(from, i, a);
        i := i + 1;
      }
    }

    method Enter(from: string)
      requires from !in inspected
      modifies this`inspected
      ensures inspected == old(inspected) + {from}
      ensures 2 * |Unseen()| + 1 <= old(Measure(from))
      ensures from in setup.lists || from == CATCHALL ==> |Unseen()| < old(|Unseen()|)
    {
      ghost var unseen := Unseen();
      inspected := inspected + {from};
      assert Unseen() == unseen - {from};
    }

    method InspectSearching(from: string) returns (selection: Answer)
      modifies this
      ensures Searched(setup, old(Value()), Value(), from, selection)
      decreases if CATCHALL in inspected || from == CATCHALL then 0 else 1
    {
      ghost var a := Value();
      inspected := inspected + {from};
      selection := AskUntilSelected(from);
      if selection == Nothing && CATCHALL !in inspected {
        ghost var mid := Value();
        selection := InspectSearching(CATCHALL);
        SearchJoined(setup, a, mid, Value(), from, selection);
      }
    }

    method AskUntilSelected(from: string) returns (selection: Answer)
      modifies this`calls
      ensures SearchedList(setup, old(Value()), Value(), from, selection)
    {
      var length := Length(setup, from);
      selection := Nothing;
      var i := 0;
      while i < length && selection == Nothing
        invariant i <= length && calls == old(calls) + Row(from, i)
        invariant NoneBefore(setup, |old(calls)|, calls)
        invariant selection.Transport? ==> i > 0 && setup.answer(calls) == selection
        invariant !selection.Transport? ==> selection == Nothing && (i > 0 ==> !setup.answer(calls).Transport?)
      {
        NoneBeforeSnoc(setup, |old(calls)|, calls, Call(from, i));
        calls := calls + [Call(from, i)];
        selection := setup.answer(calls);
        if selection.Redirect? {
          selection := Nothing;
        }
        i := i + 1;
      }
      RowPrefix(from, i, length);
    }

    /** What ajax calls; when executing only, it ignores the result. */
    method InspectPrefiltersOrTransports(executeOnly: bool) returns (selection: Answer)
      requires dataTypes != []
      modifies this
      ensures executeOnly ==> Executed(setup, Trail(old(dataTypes), {}, []), Value(), old(dataTypes)[0])
      ensures !executeOnly ==> Searched(setup, Trail(old(dataTypes), {}, []), Value(), old(dataTypes)[0], selection)
    {
      inspected, calls := {}, [];
      if executeOnly {
        InspectExecuting(dataTypes[0]);
        selection := Nothing;
      } else {
        selection := InspectSearching(dataTypes[0]);
      }
    }

    /** Call a function of the list; follow its redirection unless that type was inspected. */
    method Ask(from: string, i: nat, ghost a: Trail)
      requires Partly(setup, a, Value(), from, i) && Kept(setup, a, {from})
      modifies this
      ensures Partly(setup, a, Value(), from, i + 1) && |Unseen()| <= old(|Unseen()|)
      decreases 2 * |Unseen()| + 1, 1
    {
      ghost var t := Value();
      PartlyKept(setup, a, t, from, i);
      calls := calls + [Call(from, i)];
      var selection := setup.answer(calls);
      if selection.Redirect? && selection.dataType !in inspected {
        RedirectKept(setup, t, Call(from, i), selection.dataType);
        dataTypes := [selection.dataType] + dataTypes;
        ghost var unseen := Unseen();
        InspectExecuting(selection.dataType);
        SizeUp(unseen, Unseen());
        RedirectStep(setup, a, t, from, i, Value());
      } else {
        AskedStep(setup, a, t, from, i);
      }
    }
  }

  lemma {:induction false} OnlyCounts(calls: seq<Call>, c: Call)
    ensures multiset(Only(calls, c.dataType))[c] == multiset(calls)[c]
  {
    if calls != [] {
      var front, last := calls[..|calls| - 1], calls[|calls| - 1];
      assert calls == front + [last];
      OnlySnoc(front, last, c.dataType);
      OnlyCounts(front, c);
    }
  }

  lemma {:induction false} RowCounts(dataType: string, n: nat, index: nat)
    ensures multiset(Row(dataType, n))[Call(dataType, index)] == if index < n then 1 else 0
  {
    if n > 0 {
      RowCounts(dataType, n - 1, index);
    }
  }

  /** A top-level execution calls every function of every inspected type once, and no other. */
  lemma CalledExactly(setup: Setup, dataTypes: seq<string>, b: Trail, from: string, c: Call)
    requires Executed(setup, Trail(dataTypes, {}, []), b, from)
    ensures multiset(b.calls)[c] == if c.dataType in b.inspected && c.index < Length(setup, c.dataType) then 1 else 0
  {
    OnlyCounts(b.calls, c);
    if c.dataType in b.inspected {
      RowCounts(c.dataType, Length(setup, c.dataType), c.index);
    }
  }

  lemma {:induction false} RowPrefix(dataType: string, i: nat, n: nat)
    requires i <= n
    ensures Row(dataType, i) <= Row(dataType, n)
  {
    if i < n {
      RowPrefix(dataType, i, n - 1);
    }
  }

  lemma SizeUp<T>(big: set<T>, small: set<T>)
    requires small <= big
    ensures |small| <= |big|
  {
    assert big == small + (big - small);
  }
}
