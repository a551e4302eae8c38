/** `jQuery.when` with two or more arguments, over promises that settle in any order, before or
    after the call.  Each promise calls back at most once (module Deferred). */
module When {
  import opened Wrappers

  /** A value in the arguments array: given, undefined, an array of several, or a promise. */
  datatype Value = Plain(v: int) | Undefined | Several(vs: seq<int>) | Promise(id: nat)

  datatype Settlement = Resolved(values: seq<int>) | Rejected(values: seq<int>)

  /** What was passed: a plain value, or a promise and how it had settled before the call. */
  datatype Arg = Given(v: int) | Awaited(settled: Option<Settlement>)

  datatype Outcome = Pending | AllResolved(values: seq<Value>) | FirstRejected(why: seq<int>)

  /** A promise settles: position and settlement. */
  type Event = (nat, Settlement)

  /** What `resolveFunc` puts into the array. */
  function Stored(values: seq<int>): Value {
    if |values| > 1 then Several(values) else if |values| == 1 then Plain(values[0]) else Undefined
  }

  /** The arguments a stored value holds. */
  function ArgumentsOf(value: Value): seq<int> {
    match value
    case Undefined => []
    case Plain(v) => [v]
    case Several(vs) => vs
    case Promise(_) => []
  }

  /** A list is stored for more than one argument only, and nothing is lost. */
  predicate Holds(value: Value, values: seq<int>) {
    !value.Promise? && ArgumentsOf(value) == values && (value.Several? <==> |values| > 1)
  }

  lemma StoredHolds(values: seq<int>)
    ensures Holds(Stored(values), values)
    ensures forall value | Holds(value, values) :: value == Stored(values)
  {
  }

  // ---- what the result must be, from the settlements in their order ----

  function FirstRejection(history: seq<Event>): Option<seq<int>> {
    if history == [] then None
    else if history[0].1.Rejected? then Some(history[0].1.values)
    else FirstRejection(history[1..])
  }

  /** The value position `i` contributes, once it has one. */
  function Contribution(args: seq<Arg>, history: seq<Event>, i: nat): Option<Value>
    requires i < |args|
  {
    if args[i].Given? then Some(Plain(args[i].v)) else Settled(history, i)
  }

  function Settled(history: seq<Event>, i: nat): Option<Value> {
    if history == [] then None
    else if history[0].0 == i && history[0].1.Resolved? then Some(Stored(history[0].1.values))
    else Settled(history[1..], i)
  }

  /** The positions below `n` that have no value yet. */
  function Missing(args: seq<Arg>, history: seq<Event>, n: nat): nat
    requires n <= |args|
  {
    if n == 0 then 0
    else Missing(args, history, n - 1) + if Contribution(args, history, n - 1).None? then 1 else 0
  }

  ghost predicate IsExpected(args: seq<Arg>, history: seq<Event>, result: Outcome) {
    match FirstRejection(history)
    case Some(why) => result == FirstRejected(why)
    case None =>
      if forall i | 0 <= i < |args| :: Contribution(args, history, i).Some? then
        result.AllResolved? && |result.values| == |args|
        && forall i | 0 <= i < |args| :: Contribution(args, history, i) == Some(result.values[i])
      else result == Pending
  }

  predicate RejectsFirst(history: seq<Event>, k: int, why: seq<int>) {
    0 <= k < |history| && history[k].1 == Rejected(why) && forall l | 0 <= l < k :: history[l].1.Resolved?
  }

  ghost predicate NoRejection(history: seq<Event>) {
    forall k | 0 <= k < |history| :: history[k].1.Resolved?
  }

  /** Position `i` of a resolved result: the value passed, or what the promise passed there was
      resolved with. */
  ghost predicate Delivers(args: seq<Arg>, history: seq<Event>, i: nat, value: Value)
    requires i < |args|
  {
    match args[i]
    case Given(v) => value == Plain(v)
    case Awaited(_) => exists k :: 0 <= k < |history| && DeliveredBy(history[k], i, value)
  }

  predicate DeliveredBy(e: Event, i: nat, value: Value) {
    e.0 == i && e.1.Resolved? && Holds(value, e.1.values)
  }

  /** The result, event by event: rejected as the first promise that was rejected, resolved with
      the values of all, or pending while some promise is. */
  ghost predicate Follows(args: seq<Arg>, history: seq<Event>, result: Outcome) {
    match result
    case FirstRejected(why) => exists k :: RejectsFirst(history, k, why)
    case AllResolved(values) =>
      NoRejection(history) && |values| == |args| && forall i | 0 <= i < |args| :: Delivers(args, history, i, values[i])
    case Pending =>
      NoRejection(history)
      && exists i :: 0 <= i < |args| && args[i].Awaited? && forall k | 0 <= k < |history| :: history[k].0 != i
  }

  lemma {:induction false} RejectionIsFirst(history: seq<Event>)
    ensures FirstRejection(history).None? <==> NoRejection(history)
    ensures forall why :: FirstRejection(history) == Some(why) <==> exists k :: RejectsFirst(history, k, why)
  {
    if history != [] {
      var rest := history[1..];
      RejectionIsFirst(rest);
      assert NoRejection(history) <==> history[0].1.Resolved? && NoRejection(rest);
      forall why ensures FirstRejection(history) == Some(why) <==> exists k :: RejectsFirst(history, k, why) {
        if k :| RejectsFirst(rest, k, why) && history[0].1.Resolved? {
          assert RejectsFirst(history, k + 1, why);
        }
        if k :| RejectsFirst(history, k, why) && k > 0 {
          assert RejectsFirst(rest, k - 1, why);
        }
        if history[0].1 == Rejected(why) {
          assert RejectsFirst(history, 0, why);
        }
      }
    }
  }

  lemma {:induction false} SettledIsDelivered(history: seq<Event>, i: nat)
    ensures Settled(history, i).Some? ==>
              exists k :: 0 <= k < |history| && DeliveredBy(history[k], i, Settled(history, i).value)
    ensures Settled(history, i).None? ==>
              forall k | 0 <= k < |history| && history[k].0 == i :: history[k].1.Rejected?
  {
    if history != [] {
      SettledIsDelivered(history[1..], i);
      if history[0].0 == i && history[0].1.Resolved? {
        StoredHolds(history[0].1.values);
        assert DeliveredBy(history[0], i, Settled(history, i).value);
      } else if Settled(history, i).Some? {
        var k :| 0 <= k < |history| - 1 && DeliveredBy(history[1..][k], i, Settled(history, i).value);
        assert DeliveredBy(history[k + 1], i, Settled(history, i).value);
      }
    }
  }

  /** The expected result is the one that follows from the events. */
  lemma ExpectedFollows(args: seq<Arg>, history: seq<Event>, result: Outcome)
    requires IsExpected(args, history, result)
    ensures Follows(args, history, result)
  {
    RejectionIsFirst(history);
    forall i | 0 <= i < |args|
      ensures Contribution(args, history, i).Some? ==> Delivers(args, history, i, Contribution(args, history, i).value)
    {
      SettledIsDelivered(history, i);
    }
    if result.Pending? {
      var i :| 0 <= i < |args| && Contribution(args, history, i).None?;
      SettledIsDelivered(history, i);
    }
  }

  /** Every promise settles at most once. */
  ghost predicate Once(args: seq<Arg>, history: seq<Event>) {
    && (forall k | 0 <= k < |history| :: history[k].0 < |args| && args[history[k].0].Awaited?)
    && (forall k, l | 0 <= k < l < |history| :: history[k].0 != history[l].0)
  }

  lemma {:induction false} RejectionSnoc(history: seq<Event>, e: Event)
    ensures FirstRejection(history + [e]) ==
              if FirstRejection(history).Some? then FirstRejection(history)
              else if e.1.Rejected? then Some(e.1.values) else None
  {
    if history != [] {
      RejectionSnoc(history[1..], e);
      assert (history + [e])[1..] == history[1..] + [e];
    }
  }

  lemma {:induction false} SettledSnoc(history: seq<Event>, e: Event, i: nat)
    ensures Settled(history + [e], i) ==
              if Settled(history, i).Some? then Settled(history, i)
              else if e.0 == i && e.1.Resolved? then Some(Stored(e.1.values)) else None
  {
    if history != [] {
      SettledSnoc(history[1..], e, i);
      assert (history + [e])[1..] == history[1..] + [e];
    }
  }

  lemma {:induction false} NeverSettled(history: seq<Event>, i: nat)
    requires forall k | 0 <= k < |history| :: history[k].0 != i || history[k].1.Rejected?
    ensures Settled(history, i).None?
  {
    if history != [] {
      NeverSettled(history[1..], i);
    }
  }

  lemma {:induction false} MissingSnoc(args: seq<Arg>, history: seq<Event>, e: Event, n: nat)
    requires n <= |args| && e.0 < |args| && args[e.0].Awaited? && Settled(history, e.0).None?
    ensures Missing(args, history + [e], n) == Missing(args, history, n) - if e.1.Resolved? && e.0 < n then 1 else 0
  {
    if n > 0 {
      MissingSnoc(args, history, e, n - 1);
      SettledSnoc(history, e, n - 1);
    }
  }

  lemma {:induction false} MissingZero(args: seq<Arg>, history: seq<Event>, n: nat)
    requires n <= |args|
    ensures Missing(args, history, n) == 0 <==> forall i | 0 <= i < n :: Contribution(args, history, i).Some?
  {
    if n > 0 {
      MissingZero(args, history, n - 1);
    }
  }

  /** A promise that was rejected keeps its position empty for good. */
  lemma {:induction false} RejectionLeavesGap(args: seq<Arg>, history: seq<Event>)
    requires Once(args, history) && FirstRejection(history).Some?
    ensures Missing(args, history, |args|) > 0
  {
    var k := WhoRejected(history);
    NeverSettled(history, history[k].0);
    MissingZero(args, history, |args|);
    assert Contribution(args, history, history[k].0).None?;
  }

  lemma {:induction false} WhoRejected(history: seq<Event>) returns (k: nat)
    requires FirstRejection(history).Some?
    ensures k < |history| && history[k].1.Rejected?
  {
    if history[0].1.Rejected? {
      k := 0;
    } else {
      k := WhoRejected(history[1..]);
      k := k + 1;
    }
  }

  // ---- the call ----

  class When {
    var args: seq<Value>
    var count: int
    var result: Outcome
    ghost const passed: seq<Arg>
    ghost var history: seq<Event>

    /** The counter is the number of positions without a value, and the result is the expected
        one; `n` positions have been looked at by the loop of the call. */
    ghost predicate Counts(n: nat)
      requires n <= |passed|
      reads this
    {
      && Once(passed, history) && |args| == |passed|
      && count == Missing(passed, history, n) + (|passed| - n)
      && (forall i | 0 <= i < n && Contribution(passed, history, i).Some? ::
            Contribution(passed, history, i) == Some(args[i]))
    }

    /** What the result may be while the loop of the call is still going on. */
    ghost predicate Tracks()
      reads this
    {
      match FirstRejection(history)
      case Some(why) => result == FirstRejected(why)
      case None => result == Pending || (count == 0 && result == AllResolved(args))
    }

    ghost predicate Valid()
      reads this
    {
      Counts(|passed|) && IsExpected(passed, history, result)
    }

    /** `deferred.resolveWith`: a result that is settled stays as it is. */
    method ResolveResult()
      modifies this`result
      ensures result == if old(result).Pending? then AllResolved(args) else old(result)
    {
      if result.Pending? {
        result := AllResolved(args);
      }
    }

    /** The callback `resolveFunc( i )`. */
    method Fill(i: nat, values: seq<int>)
      requires i < |args|
      modifies this`args, this`count, this`result
      ensures args == old(args)[i := Stored(values)] && count == old(count) - 1
      ensures result == if count == 0 && old(result).Pending? then AllResolved(args) else old(result)
    {
      args := args[i := Stored(values)];
      count := count - 1;
      if count == 0 {
        ResolveResult();
      }
    }

    /** The callback `deferred.reject`. */
    method Reject(why: seq<int>)
      modifies this`result
      ensures result == if old(result).Pending? then FirstRejected(why) else old(result)
    {
      if result.Pending? {
        result := FirstRejected(why);
      }
    }

    /** A promise calls back; `n` positions have been looked at. */
    method CallBack(i: nat, s: Settlement, ghost n: nat)
      requires i < n <= |passed| && passed[i].Awaited? && Counts(n) && Tracks()
      requires forall k | 0 <= k < |history| :: history[k].0 != i
      modifies this
      ensures Counts(n) && Tracks() && history == old(history) + [(i, s)]
      ensures result == if !old(result).Pending? then old(result)
                        else match s
                             case Resolved(_) => if count == 0 then AllResolved(args) else Pending
                             case Rejected(why) => FirstRejected(why)
      ensures s.Resolved? ==> Holds(args[i], s.values)
      ensures forall j | 0 <= j < |args| && j != i :: args[j] == old(args[j])
    {
      ghost var before := history;
      Extend(passed, before, (i, s), n);
      MissingZero(passed, before, n);
      assert Contribution(passed, before, i).None?;
      history := history + [(i, s)];
      match s {
        case Resolved(values) =>
          StoredHolds(values);
          Fill(i, values);
        case Rejected(why) => Reject(why);
      }
    }

    /** The end of the call: everything may have been there from the start. */
    method ResolveIfComplete()
      requires Counts(|passed|) && Tracks()
      modifies this`result
      ensures Valid()
    {
      MissingZero(passed, history, |passed|);
      if FirstRejection(history).Some? {
        RejectionLeavesGap(passed, history);
      }
      if count == 0 {
        ResolveResult();
      }
    }

    /** The call itself: promises that have settled already call back from within the loop. */
    constructor (given: seq<Arg>)
      requires |given| > 1
      ensures Valid() && passed == given && history == Early(given, |given|)
      ensures Follows(passed, history, result)
    {
      passed := given;
      args := seq(|given|, i requires 0 <= i < |given| => if given[i].Given? then Plain(given[i].v) else Promise(i));
      count := |given|;
      result := Pending;
      history := [];
      new;
      for i := 0 to |given|
        invariant Counts(i) && Tracks() && history == Early(given, i)
        invariant forall j | i <= j < |given| && given[j].Given? :: args[j] == Plain(given[j].v)
      {
        Subscribe(i, given[i]);
      }
      ResolveIfComplete();
      ExpectedFollows(passed, history, result);
    }

    /** The loop body of the call, for argument `i`. */
    method Subscribe(i: nat, arg: Arg)
      requires i < |passed| && arg == passed[i] && Counts(i) && Tracks() && history == Early(passed, i)
      requires arg.Given? ==> args[i] == Plain(arg.v)
      modifies this
      ensures Counts(i + 1) && Tracks() && history == Early(passed, i + 1)
      ensures forall j | 0 <= j < |args| && j != i :: args[j] == old(args[j])
    {
      EarlyIsEarlier(passed, i);
      if arg.Given? {
        count := count - 1;
      } else {
        NeverSettled(history, i);
        if arg.settled.Some? {
          CallBack(i, arg.settled.value, i + 1);
        }
      }
    }

    /** A promise that was still open settles. */
    method Settle(i: nat, s: Settlement)
      requires Valid() && i < |passed| && passed[i].Awaited?
      requires forall k | 0 <= k < |history| :: history[k].0 != i
      modifies this
      ensures Valid() && history == old(history) + [(i, s)]
      ensures Follows(passed, history, result)
      ensures !old(result).Pending? ==> result == old(result)
    {
      NeverSettled(history, i);
      MissingZero(passed, history, |passed|);
      assert Contribution(passed, history, i).None?;
      CallBack(i, s, |passed|);
      MissingZero(passed, history, |passed|);
      if FirstRejection(history).Some? {
        RejectionLeavesGap(passed, history);
      }
      ExpectedFollows(passed, history, result);
    }
  }

  /** The settlements the loop of the call finds, in argument order. */
  function Early(given: seq<Arg>, n: nat): seq<Event>
    requires n <= |given|
  {
    if n == 0 then []
    else if given[n - 1].Awaited? && given[n - 1].settled.Some? then
      Early(given, n - 1) + [(n - 1, given[n - 1].settled.value)]
    else Early(given, n - 1)
  }

  lemma {:induction false} EarlyIsEarlier(given: seq<Arg>, n: nat)
    requires n <= |given|
    ensures forall k | 0 <= k < |Early(given, n)| :: Early(given, n)[k].0 < n
  {
    if n > 0 {
      EarlyIsEarlier(given, n - 1);
    }
  }

  /** They are those of the promises settled before the call. */
  lemma {:induction false} EarlyExactly(given: seq<Arg>, n: nat, e: Event)
    requires n <= |given|
    ensures e in Early(given, n) <==> e.0 < n && given[e.0] == Awaited(Some(e.1))
    ensures forall k, l | 0 <= k < l < |Early(given, n)| :: Early(given, n)[k].0 < Early(given, n)[l].0
  {
    if n > 0 {
      EarlyIsEarlier(given, n - 1);
      EarlyExactly(given, n - 1, e);
    }
  }

  /** One more settlement: what it adds to each part of the specification. */
  lemma Extend(args: seq<Arg>, history: seq<Event>, e: Event, n: nat)
    requires n <= |args| && e.0 < |args| && args[e.0].Awaited?
    requires forall k | 0 <= k < |history| :: history[k].0 != e.0
    ensures Settled(history, e.0).None?
    ensures Missing(args, history + [e], n) == Missing(args, history, n) - if e.1.Resolved? && e.0 < n then 1 else 0
    ensures forall j | 0 <= j < |args| :: Contribution(args, history + [e], j) ==
              if j == e.0 then (if e.1.Resolved? then Some(Stored(e.1.values)) else None)
              else Contribution(args, history, j)
    ensures FirstRejection(history + [e]) ==
              if FirstRejection(history).Some? then FirstRejection(history)
              else if e.1.Rejected? then Some(e.1.values) else None
  {
    NeverSettled(history, e.0);
    MissingSnoc(args, history, e, n);
    RejectionSnoc(history, e);
    forall j | 0 <= j < |args| ensures Contribution(args, history + [e], j) ==
      if j == e.0 then (if e.1.Resolved? then Some(Stored(e.1.values)) else None) else Contribution(args, history, j)
    {
      SettledSnoc(history, e, j);
    }
  }
}
