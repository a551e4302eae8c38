/** `jQuery._Deferred` and `jQuery.Deferred`.

    Callbacks may re-enter `done`, `fail`, `resolve` and `reject`, register without bound, and
    throw, so a run is modelled in small steps over an explicit call stack.  What user code does
    inside a callback is left entirely open: at every step it may make any call, return or throw. */
module Deferred {
  import opened Wrappers
  import opened Sequences

  /** The context and arguments a list is fired with. */
  datatype Call = Call(context: int, args: seq<int>)

  datatype Which = DoneList | FailList

  function Other(w: Which): Which {
    if w.DoneList? then FailList else DoneList
  }

  /** An entry of a callback list: the `cancel` of the other list, or the function of one
      registration. */
  datatype Entry = CancelOther | User(reg: nat)

  /** The closure variables of one `_Deferred`. */
  datatype Simple = Simple(callbacks: seq<Entry>, fired: Option<Call>, firing: bool, cancelled: bool)
  {
    /** `isResolved`. */
    predicate Resolved() {
      firing || fired.Some?
    }

    /** `done`, up to the call of resolveWith it may end in. */
    function Register(entries: seq<Entry>): Simple {
      if cancelled then this else this.(callbacks := callbacks + entries, fired := None)
    }

    /** The test at the head of resolveWith. */
    predicate MayFire() {
      !cancelled && fired.None? && !firing
    }

    function Cancel(): Simple {
      this.(cancelled := true, callbacks := [])
    }

    /** The finally block of resolveWith. */
    function Finish(call: Call): Simple {
      this.(fired := Some(call), firing := false)
    }
  }

  // ---- the object ----

  /** An argument of `done`: a function, a nested list of arguments, or something ignored. */
  datatype Arg = Fn(entry: Entry) | List(args: seq<Arg>) | Ignored

  function Flatten(args: seq<Arg>): seq<Entry> {
    Join(seq(|args|, i requires 0 <= i < |args| => Functions(args[i])))
  }

  function Functions(arg: Arg): seq<Entry> {
    match arg
    case Fn(e) => [e]
    case List(inner) => Flatten(inner)
    case Ignored => []
  }

  lemma FlattenConcat(front: seq<Arg>, back: seq<Arg>)
    ensures Flatten(front + back) == Flatten(front) + Flatten(back)
  {
    var pieces := (args: seq<Arg>) => seq(|args|, i requires 0 <= i < |args| => Functions(args[i]));
    assert pieces(front + back) == pieces(front) + pieces(back);
    JoinConcat(pieces(front), pieces(back));
  }

  lemma FlattenSingle(arg: Arg)
    ensures Flatten([arg]) == Functions(arg)
  {
    assert Join([Functions(arg)]) == Join([]) + Functions(arg);
    assert seq(1, i requires 0 <= i < 1 => Functions([arg][i])) == [Functions(arg)];
  }

  lemma FlattenSnoc(args: seq<Arg>, arg: Arg)
    ensures Flatten(args + [arg]) == Flatten(args) + Functions(arg)
  {
    FlattenConcat(args, [arg]);
    FlattenSingle(arg);
  }

  /** A nested list registers what its items would in its place. */
  lemma FlattenUnpacks(front: seq<Arg>, inner: seq<Arg>, back: seq<Arg>)
    ensures Flatten(front + [List(inner)] + back) == Flatten(front + inner + back)
  {
    FlattenConcat(front + [List(inner)], back);
    FlattenSnoc(front, List(inner));
    FlattenConcat(front + inner, back);
    FlattenConcat(front, inner);
  }

  /** What is neither function nor list registers nothing. */
  lemma FlattenIgnores(front: seq<Arg>, back: seq<Arg>)
    ensures Flatten(front + [Ignored] + back) == Flatten(front + back)
  {
    FlattenConcat(front + [Ignored], back);
    FlattenSnoc(front, Ignored);
    FlattenConcat(front, back);
  }

  /** Functions register themselves, in their order. */
  lemma {:induction false} FlattenFunctions(args: seq<Arg>, entries: seq<Entry>)
    requires |args| == |entries| && forall i | 0 <= i < |args| :: args[i] == Fn(entries[i])
    ensures Flatten(args) == entries
    decreases |args|
  {
    if args != [] {
      var front, last := args[..|args| - 1], args[|args| - 1];
      FlattenFunctions(front, entries[..|entries| - 1]);
      FlattenSnoc(front, last);
      assert args == front + [last];
    }
  }

  class SimpleDeferred {
    var callbacks: seq<Entry>
    var fired: Option<Call>
    var firing: bool
    var cancelled: bool

    ghost function Value(): Simple
      reads this
    {
      Simple(callbacks, fired, firing, cancelled)
    }

    constructor ()
      ensures Value() == Simple([], None, false, false)
    {
      callbacks, fired, firing, cancelled := [], None, false, false;
    }

    /** `done`, which calls itself for nested lists.  When the deferred had already fired, the
        caller goes on with the loop of resolveWith (`again`). */
    method Done(args: seq<Arg>) returns (again: Option<Call>)
      modifies this
      ensures Value() == if again.Some? then old(Value()).Register(Flatten(args)).(firing := true)
                         else old(Value()).Register(Flatten(args))
      ensures again == if old(cancelled) || old(firing) then None else old(fired)
      decreases args
    {
      again := None;
      if !cancelled {
        var savedFired := None;
        if fired.Some? {
          savedFired := fired;
          fired := None;
        }
        ghost var before := callbacks;
        for i := 0 to |args|
          invariant callbacks == before + Flatten(args[..i])
          invariant fired == None && firing == old(firing) && !cancelled
        {
          FlattenSnoc(args[..i], args[i]);
          assert args[..i + 1] == args[..i] + [args[i]];
          match args[i] {
            case List(inner) =>
              var _ := Done(inner);
            case Fn(entry) =>
              callbacks := callbacks + [entry];
            case Ignored =>
          }
        }
        assert args[..|args|] == args;
        if savedFired.Some? {
          var started := StartResolve();
          again := if started then savedFired else None;
        }
      }
    }

    /** The head of resolveWith. */
    method StartResolve() returns (started: bool)
      modifies this
      ensures started == old(Value()).MayFire()
      ensures Value() == if started then old(Value()).(firing := true) else old(Value())
    {
      started := !cancelled && fired.None? && !firing;
      if started {
        firing := true;
      }
    }

    /** `callbacks.shift()` in the loop of resolveWith. */
    method Shift() returns (e: Entry)
      requires callbacks != []
      modifies this
      ensures e == old(callbacks)[0] && Value() == old(Value()).(callbacks := old(callbacks)[1..])
    {
      e := callbacks[0];
      callbacks := callbacks[1..];
    }

    method FinishResolve(call: Call)
      modifies this
      ensures Value() == old(Value()).Finish(call)
    {
      fired := Some(call);
      firing := false;
    }

    method Cancel()
      modifies this
      ensures Value() == old(Value()).Cancel()
    {
      cancelled := true;
      callbacks := [];
    }
  }

  // ---- runs of a Deferred ----

  /** What is on the call stack: user code, or the loop of a resolveWith. */
  datatype Frame = Script | Loop(which: Which, call: Call)

  /** A list with its history, which no step reads: the registrations that entered it and the
      callbacks that were called, both in order. */
  datatype Tracked = Tracked(x: Simple, accepted: seq<nat>, ran: seq<(nat, Call)>)

  datatype State = State(
    done: Tracked,
    fail: Tracked,
    stack: seq<Frame>,   // innermost first
    throwing: bool,      // an exception is on its way out
    next: nat,           // registrations handed out so far
    threw: bool)         // some callback has thrown

  function Get(s: State, w: Which): Tracked {
    if w.DoneList? then s.done else s.fail
  }

  function Put(s: State, w: Which, l: Tracked): State {
    if w.DoneList? then s.(done := l) else s.(fail := l)
  }

  /** `Deferred`: each list starts with the `cancel` of the other. */
  function Start(): State {
    var idle := Tracked(Simple([CancelOther], None, false, false), [], []);
    State(idle, idle, [], false, 0, false)
  }

  /** The ways a run goes on. */
  datatype Act =
    | Turn                                    // the event loop starts new user code
    | Register(which: Which, args: seq<Arg>)  // user code calls done or fail
    | Fire(fires: Which, call: Call)          // user code calls resolveWith or rejectWith
    | Return                                  // user code returns
    | Throw                                   // user code throws
    | Catch                                   // user code catches what passes through it
    | Internal                                // the library goes on, or an exception unwinds one frame

  predicate UserRuns(s: State) {
    s.stack != [] && s.stack[0].Script? && !s.throwing
  }

  /** The functions among the arguments, nested ones too, are numbered on from `first`. */
  predicate Numbered(args: seq<Arg>, first: nat) {
    Flatten(args) == Users(Regs(first, |Flatten(args)|))
  }

  predicate Enabled(s: State, a: Act) {
    match a
    case Turn => s.stack == []
    case Register(_, args) => UserRuns(s) && Numbered(args, s.next)
    case Fire(_, _) => UserRuns(s)
    case Return => UserRuns(s)
    case Throw => UserRuns(s)
    case Catch => s.stack != [] && s.stack[0].Script? && s.throwing
    case Internal => s.stack != [] && (s.throwing || s.stack[0].Loop?)
  }

  function Regs(first: nat, k: nat): seq<nat> {
    seq(k, i => first + i)
  }

  function Users(regs: seq<nat>): seq<Entry> {
    seq(|regs|, i requires 0 <= i < |regs| => User(regs[i]))
  }

  /** resolveWith passed its test: the loop is entered. */
  function EnterLoop(s: State, w: Which, call: Call): State {
    var l := Get(s, w);
    Put(s, w, l.(x := l.x.(firing := true))).(stack := [Loop(w, call)] + s.stack)
  }

  /** `done` or `fail` with `k` functions, whose registrations are ignored by a cancelled list and run at once, with
      the call it fired with, by one that has fired. */
  function RegisterAct(s: State, w: Which, k: nat): State {
    var l := Get(s, w);
    var regs := Regs(s.next, k);
    if l.x.cancelled then s.(next := s.next + k)
    else
      var t := Put(s, w, l.(x := l.x.Register(Users(regs)), accepted := l.accepted + regs)).(next := s.next + k);
      if l.x.fired.Some? && l.x.Register([]).MayFire() then EnterLoop(t, w, l.x.fired.value) else t
  }

  /** One turn of the loop of resolveWith, or the unwinding of one frame. */
  function InternalAct(s: State): State
    requires s.stack != []
  {
    if s.stack[0].Script? then s.(stack := s.stack[1..])
    else
      var w, call := s.stack[0].which, s.stack[0].call;
      var l := Get(s, w);
      if s.throwing || l.x.callbacks == [] then Put(s, w, l.(x := l.x.Finish(call))).(stack := s.stack[1..])
      else
        var x := l.x.(callbacks := l.x.callbacks[1..]);
        match l.x.callbacks[0]
        case CancelOther =>
          var other := Get(s, Other(w));
          Put(Put(s, w, l.(x := x)), Other(w), other.(x := other.x.Cancel()))
        case User(reg) =>
          Put(s, w, l.(x := x, ran := l.ran + [(reg, call)])).(stack := [Script] + s.stack)
  }

  function Next(s: State, a: Act): State
    requires Enabled(s, a)
  {
    match a
    case Turn => s.(stack := [Script], throwing := false)
    case Register(w, args) => RegisterAct(s, w, |Flatten(args)|)
    case Fire(w, call) => if Get(s, w).x.MayFire() then EnterLoop(s, w, call) else s
    case Return => s.(stack := s.stack[1..])
    case Throw => s.(throwing := true, threw := true)
    case Catch => s.(throwing := false)
    case Internal => InternalAct(s)
  }

  /** The acts of a run are possible one after the other. */
  predicate IsRun(acts: seq<Act>)
    decreases |acts|, 0
  {
    acts == [] || (IsRun(acts[..|acts| - 1]) && Enabled(After(acts[..|acts| - 1]), acts[|acts| - 1]))
  }

  function After(acts: seq<Act>): State
    requires IsRun(acts)
    decreases |acts|
  {
    if acts == [] then Start() else Next(After(acts[..|acts| - 1]), acts[|acts| - 1])
  }

  // ---- what the run amounts to, read off the calls user code made ----

  /** The first call of resolve or reject. */
  function Winner(acts: seq<Act>): Option<(Which, Call)> {
    if acts == [] then None
    else if acts[0].Fire? then Some((acts[0].fires, acts[0].call))
    else Winner(acts[1..])
  }

  /** The other list has won. */
  predicate Beaten(acts: seq<Act>, w: Which) {
    Winner(acts).Some? && Winner(acts).value.0 == Other(w)
  }

  lemma {:induction false} WinnerSnoc(acts: seq<Act>, a: Act)
    ensures Winner(acts + [a]) == if Winner(acts).Some? then Winner(acts)
                                  else if a.Fire? then Some((a.fires, a.call)) else None
  {
    if acts != [] {
      WinnerSnoc(acts[1..], a);
      assert (acts + [a])[1..] == acts[1..] + [a];
    } else {
      assert (acts + [a])[1..] == [];
    }
  }

  function Count(acts: seq<Act>): nat {
    if acts == [] then 0
    else Count(acts[..|acts| - 1]) + (if acts[|acts| - 1].Register? then |Flatten(acts[|acts| - 1].args)| else 0)
  }

  /** The registrations a list takes: all that were made before the other list won. */
  function Taken(acts: seq<Act>, w: Which): seq<nat> {
    if acts == [] then []
    else
      var before, a := acts[..|acts| - 1], acts[|acts| - 1];
      Taken(before, w) +
      if a.Register? && a.which == w && !Beaten(before, w)
      then Regs(Count(before), |Flatten(a.args)|) else []
  }

  function RegsOf(ran: seq<(nat, Call)>): (r: seq<nat>)
    ensures |r| == |ran|
  {
    seq(|ran|, i requires 0 <= i < |ran| => ran[i].0)
  }

  // ---- the invariant ----

  predicate OnlyScripts(stack: seq<Frame>) {
    forall i | 0 <= i < |stack| :: stack[i].Script?
  }

  /** Exactly one loop, of the winning list, is on the stack. */
  ghost predicate OneLoop(stack: seq<Frame>, w: Which, call: Call) {
    exists k :: LoopAt(stack, k, w, call)
  }

  predicate LoopAt(stack: seq<Frame>, k: int, w: Which, call: Call) {
    0 <= k < |stack| && stack[k] == Loop(w, call) && OnlyScripts(stack[..k]) && OnlyScripts(stack[k + 1..])
  }

  /** A list nobody has fired or cancelled. */
  predicate Waiting(l: Tracked) {
    l.x == Simple([CancelOther] + Users(l.accepted), None, false, false) && l.ran == []
  }

  predicate Dead(l: Tracked) {
    l.x == Simple([], None, false, true) && l.ran == []
  }

  /** What was accepted is what has run, with one call, followed by what is still in the list. */
  predicate Ledger(callbacks: seq<Entry>, accepted: seq<nat>, ran: seq<(nat, Call)>, call: Call) {
    && |ran| <= |accepted|
    && RegsOf(ran) == accepted[..|ran|]
    && callbacks == Users(accepted[|ran|..])
    && forall i | 0 <= i < |ran| :: ran[i].1 == call
  }

  lemma LedgerPush(callbacks: seq<Entry>, accepted: seq<nat>, ran: seq<(nat, Call)>, call: Call, regs: seq<nat>)
    requires Ledger(callbacks, accepted, ran, call)
    ensures Ledger(callbacks + Users(regs), accepted + regs, ran, call)
  {
    assert (accepted + regs)[|ran|..] == accepted[|ran|..] + regs;
    assert (accepted + regs)[..|ran|] == accepted[..|ran|];
    RegsThenUsers(accepted[|ran|..], regs);
  }

  lemma LedgerShift(callbacks: seq<Entry>, accepted: seq<nat>, ran: seq<(nat, Call)>, call: Call)
    requires Ledger(callbacks, accepted, ran, call) && callbacks != []
    ensures callbacks[0].User? && Ledger(callbacks[1..], accepted, ran + [(callbacks[0].reg, call)], call)
  {
    var n := |ran|;
    assert accepted[n..][1..] == accepted[n + 1..];
    assert Users(accepted[n..])[1..] == Users(accepted[n..][1..]);
    assert accepted[..n + 1] == accepted[..n] + [accepted[n]];
    assert RegsOf(ran + [(accepted[n], call)]) == RegsOf(ran) + [accepted[n]];
  }

  /** The list that won, once it has cancelled the other. */
  ghost predicate Live(l: Tracked, w: Which, call: Call, stack: seq<Frame>, threw: bool) {
    && !l.x.cancelled
    && (if l.x.firing then l.x.fired == None && OneLoop(stack, w, call)
        else l.x.fired == Some(call) && OnlyScripts(stack) && (l.x.callbacks == [] || threw))
    && Ledger(l.x.callbacks, l.accepted, l.ran, call)
  }

  /** The list that won, about to cancel the other: no user code runs here. */
  predicate Opening(l: Tracked, w: Which, call: Call, stack: seq<Frame>) {
    && l.x == Simple([CancelOther] + Users(l.accepted), None, true, false) && l.ran == []
    && stack != [] && stack[0] == Loop(w, call) && OnlyScripts(stack[1..])
  }

  ghost predicate Inv(s: State, winner: Option<(Which, Call)>) {
    && (s.throwing ==> s.threw)
    && match winner
       case None => Waiting(s.done) && Waiting(s.fail) && OnlyScripts(s.stack)
       case Some((w, call)) =>
         || (Opening(Get(s, w), w, call, s.stack) && !s.throwing && Waiting(Get(s, Other(w))))
         || (Live(Get(s, w), w, call, s.stack, s.threw) && Dead(Get(s, Other(w))))
  }

  lemma RegsThenUsers(a: seq<nat>, b: seq<nat>)
    ensures Users(a + b) == Users(a) + Users(b)
  {
  }

  lemma RegisterAccepts(s: State, w: Which, k: nat)
    ensures Get(RegisterAct(s, w, k), Other(w)) == Get(s, Other(w))
    ensures Get(RegisterAct(s, w, k), w).accepted ==
              if Get(s, w).x.cancelled then Get(s, w).accepted else Get(s, w).accepted + Regs(s.next, k)
  {
  }

  lemma RegisterOnLive(s: State, w: Which, call: Call, k: nat)
    requires Live(Get(s, w), w, call, s.stack, s.threw)
    ensures Live(Get(RegisterAct(s, w, k), w), w, call, RegisterAct(s, w, k).stack, RegisterAct(s, w, k).threw)
  {
    var l := Get(s, w);
    LedgerPush(l.x.callbacks, l.accepted, l.ran, call, Regs(s.next, k));
    if !l.x.firing {
      assert LoopAt([Loop(w, call)] + s.stack, 0, w, call);
    }
  }

  lemma RegisterOnWaiting(s: State, w: Which, k: nat)
    requires Waiting(Get(s, w))
    ensures Waiting(Get(RegisterAct(s, w, k), w)) && RegisterAct(s, w, k).stack == s.stack
  {
    RegsThenUsers(Get(s, w).accepted, Regs(s.next, k));
  }

  lemma RegisterKeeps(s: State, winner: Option<(Which, Call)>, w: Which, k: nat)
    requires Inv(s, winner) && UserRuns(s)
    ensures Inv(RegisterAct(s, w, k), winner)
  {
    RegisterAccepts(s, w, k);
    match winner
    case None =>
      RegisterOnWaiting(s, w, k);
    case Some((v, call)) =>
      if v == w {
        RegisterOnLive(s, w, call, k);
      }
  }

  lemma FireKeeps(s: State, winner: Option<(Which, Call)>, w: Which, call: Call)
    requires Inv(s, winner) && UserRuns(s)
    ensures Inv(Next(s, Fire(w, call)), if winner.Some? then winner else Some((w, call)))
  {
  }

  lemma LoopOnTop(stack: seq<Frame>, w: Which, call: Call)
    requires OneLoop(stack, w, call) && stack != []
    ensures stack[0].Loop? ==> LoopAt(stack, 0, w, call)
    ensures stack[0].Script? ==> OneLoop(stack[1..], w, call)
  {
    var k :| LoopAt(stack, k, w, call);
    if k > 0 {
      assert stack[0] == stack[..k][0];
      assert stack[1..][..k - 1] == stack[..k][1..] && stack[1..][k..] == stack[k + 1..];
      assert LoopAt(stack[1..], k - 1, w, call);
    }
  }

  lemma CallKeepsLoop(stack: seq<Frame>, w: Which, call: Call)
    requires OneLoop(stack, w, call)
    ensures OneLoop([Script] + stack, w, call)
  {
    var k :| LoopAt(stack, k, w, call);
    assert ([Script] + stack)[..k + 1] == [Script] + stack[..k];
    assert ([Script] + stack)[k + 2..] == stack[k + 1..];
    assert LoopAt([Script] + stack, k + 1, w, call);
  }

  /** The first turn of a loop runs the `cancel` of the other list. */
  lemma OpeningTurn(s: State, w: Which, call: Call)
    requires Opening(Get(s, w), w, call, s.stack) && !s.throwing && Waiting(Get(s, Other(w)))
    ensures Live(Get(InternalAct(s), w), w, call, InternalAct(s).stack, s.threw)
    ensures Dead(Get(InternalAct(s), Other(w)))
  {
    var l := Get(s, w);
    assert l.x.callbacks[1..] == Users(l.accepted);
    assert LoopAt(s.stack, 0, w, call);
    assert l.accepted[0..] == l.accepted;
  }

  lemma LiveTurn(s: State, w: Which, call: Call)
    requires s.stack != [] && (s.throwing || s.stack[0].Loop?) && (s.throwing ==> s.threw)
    requires Live(Get(s, w), w, call, s.stack, s.threw) && Dead(Get(s, Other(w)))
    ensures Live(Get(InternalAct(s), w), w, call, InternalAct(s).stack, s.threw)
    ensures Dead(Get(InternalAct(s), Other(w)))
  {
    var l := Get(s, w);
    if l.x.firing {
      LoopOnTop(s.stack, w, call);
      if s.stack[0].Loop? && !s.throwing && l.x.callbacks != [] {
        LedgerShift(l.x.callbacks, l.accepted, l.ran, call);
        CallKeepsLoop(s.stack, w, call);
      }
    }
  }

  /** An act of the library changes neither the registrations nor whether something was thrown. */
  lemma InternalHistory(s: State)
    requires s.stack != []
    ensures InternalAct(s).done.accepted == s.done.accepted && InternalAct(s).fail.accepted == s.fail.accepted
    ensures InternalAct(s).next == s.next && InternalAct(s).throwing == s.throwing && InternalAct(s).threw == s.threw
  {
  }

  lemma InternalKeeps(s: State, winner: Option<(Which, Call)>)
    requires Inv(s, winner) && Enabled(s, Internal)
    ensures Inv(InternalAct(s), winner)
  {
    InternalHistory(s);
    if winner.Some? {
      var (w, call) := winner.value;
      if Opening(Get(s, w), w, call, s.stack) {
        OpeningTurn(s, w, call);
      } else {
        LiveTurn(s, w, call);
      }
    }
  }

  lemma ControlKeeps(s: State, winner: Option<(Which, Call)>, a: Act)
    requires Inv(s, winner) && Enabled(s, a) && (a.Turn? || a.Return? || a.Throw? || a.Catch?)
    ensures Inv(Next(s, a), winner)
  {
    if winner.Some? && a.Return? && Get(s, winner.value.0).x.firing {
      LoopOnTop(s.stack, winner.value.0, winner.value.1);
    }
  }

  lemma StepKeeps(s: State, winner: Option<(Which, Call)>, a: Act)
    requires Inv(s, winner) && Enabled(s, a)
    ensures Inv(Next(s, a), if winner.None? && a.Fire? then Some((a.fires, a.call)) else winner)
  {
    match a
    case Register(w, args) => RegisterKeeps(s, winner, w, |Flatten(args)|);
    case Fire(w, call) => FireKeeps(s, winner, w, call);
    case Internal => InternalKeeps(s, winner);
    case Turn => ControlKeeps(s, winner, a);
    case Return => ControlKeeps(s, winner, a);
    case Throw => ControlKeeps(s, winner, a);
    case Catch => ControlKeeps(s, winner, a);
  }

  /** The history of a run, read off its acts. */
  predicate Records(s: State, acts: seq<Act>) {
    && s.done.accepted == Taken(acts, DoneList) && s.fail.accepted == Taken(acts, FailList)
    && s.next == Count(acts) && (s.threw ==> Throw in acts)
  }

  /** A list takes a registration exactly when the other list has not won. */
  lemma StepAccepts(s: State, winner: Option<(Which, Call)>, a: Act, w: Which)
    requires Inv(s, winner) && Enabled(s, a)
    ensures Get(Next(s, a), w).accepted == Get(s, w).accepted +
              if a.Register? && a.which == w && !(winner.Some? && winner.value.0 == Other(w))
              then Regs(s.next, |Flatten(a.args)|) else []
  {
    match a
    case Register(v, args) => RegisterAccepts(s, v, |Flatten(args)|);
    case Internal => InternalHistory(s);
    case _ =>
  }

  lemma StepCounts(s: State, a: Act)
    requires Enabled(s, a)
    ensures Next(s, a).next == s.next + (if a.Register? then |Flatten(a.args)| else 0)
    ensures Next(s, a).threw == (s.threw || a.Throw?)
  {
    if a.Internal? {
      InternalHistory(s);
    }
  }

  lemma RecordsGrow(s: State, t: State, before: seq<Act>, a: Act)
    requires Records(s, before)
    requires t.next == s.next + (if a.Register? then |Flatten(a.args)| else 0) && t.threw == (s.threw || a.Throw?)
    requires forall w :: Get(t, w).accepted == Get(s, w).accepted +
               if a.Register? && a.which == w && !Beaten(before, w)
               then Regs(s.next, |Flatten(a.args)|) else []
    ensures Records(t, before + [a])
  {
    assert (before + [a])[..|before|] == before;
    assert t.done.accepted == Get(t, DoneList).accepted && t.fail.accepted == Get(t, FailList).accepted;
  }

  lemma {:induction false} RunInv(acts: seq<Act>)
    requires IsRun(acts)
    ensures Inv(After(acts), Winner(acts)) && Records(After(acts), acts)
    decreases |acts|
  {
    if acts != [] {
      var before, a := acts[..|acts| - 1], acts[|acts| - 1];
      RunInv(before);
      assert acts == before + [a];
      WinnerSnoc(before, a);
      StepKeeps(After(before), Winner(before), a);
      StepAccepts(After(before), Winner(before), a, DoneList);
      StepAccepts(After(before), Winner(before), a, FailList);
      StepCounts(After(before), a);
      RecordsGrow(After(before), After(acts), before, a);
    } else {
      assert Users([]) == [];
    }
  }

  predicate FirstFire(acts: seq<Act>, i: int) {
    0 <= i < |acts| && acts[i].Fire? && forall j | 0 <= j < i :: !acts[j].Fire?
  }

  /** The winner is who is called first. */
  lemma {:induction false} WinnerIsFirst(acts: seq<Act>, w: Which, call: Call)
    ensures Winner(acts) == Some((w, call)) <==> exists i :: FirstFire(acts, i) && acts[i] == Fire(w, call)
  {
    if acts != [] && acts[0].Fire? {
      assert FirstFire(acts, 0);
    } else if acts != [] {
      var rest := acts[1..];
      WinnerIsFirst(rest, w, call);
      if i :| FirstFire(rest, i) && rest[i] == Fire(w, call) {
        assert FirstFire(acts, i + 1);
      }
      if i :| FirstFire(acts, i) && acts[i] == Fire(w, call) {
        assert FirstFire(rest, i - 1);
      }
    }
  }

  predicate Brings(a: Act, w: Which, reg: nat) {
    a.Register? && a.which == w && User(reg) in Flatten(a.args)
  }

  /** Some act hands the function of registration `reg` to list `w`, before the other list has won. */
  ghost predicate HandedOver(acts: seq<Act>, w: Which, reg: nat) {
    exists i :: 0 <= i < |acts| && Brings(acts[i], w, reg) && !Beaten(acts[..i], w)
  }

  lemma LastHandsOver(acts: seq<Act>, w: Which, reg: nat)
    requires acts != []
    ensures HandedOver(acts, w, reg) <==>
            || HandedOver(acts[..|acts| - 1], w, reg)
            || (Brings(acts[|acts| - 1], w, reg) && !Beaten(acts[..|acts| - 1], w))
  {
    var before := acts[..|acts| - 1];
    if i :| 0 <= i < |before| && Brings(before[i], w, reg) && !Beaten(before[..i], w) {
      assert acts[i] == before[i] && acts[..i] == before[..i];
    }
    if i :| 0 <= i < |acts| && Brings(acts[i], w, reg) && !Beaten(acts[..i], w) {
      if i < |before| {
        assert acts[i] == before[i] && acts[..i] == before[..i];
      }
    }
  }

  lemma RunNumbers(acts: seq<Act>)
    requires IsRun(acts) && acts != []
    ensures IsRun(acts[..|acts| - 1])
    ensures var a := acts[|acts| - 1]; a.Register? ==> Numbered(a.args, Count(acts[..|acts| - 1]))
  {
    RunInv(acts[..|acts| - 1]);
  }

  /** A list takes exactly the functions handed to it before the other list has won. */
  lemma {:induction false} TakenExactly(acts: seq<Act>, w: Which, reg: nat)
    requires IsRun(acts)
    ensures reg in Taken(acts, w) <==> HandedOver(acts, w, reg)
    decreases |acts|
  {
    if acts != [] {
      RunNumbers(acts);
      TakenExactly(acts[..|acts| - 1], w, reg);
      LastTaken(acts, w, reg);
      LastHandsOver(acts, w, reg);
    }
  }

  lemma LastTaken(acts: seq<Act>, w: Which, reg: nat)
    requires acts != []
    requires var a := acts[|acts| - 1]; a.Register? ==> Numbered(a.args, Count(acts[..|acts| - 1]))
    ensures reg in Taken(acts, w) <==>
            || reg in Taken(acts[..|acts| - 1], w)
            || (Brings(acts[|acts| - 1], w, reg) && !Beaten(acts[..|acts| - 1], w))
  {
    var before, a := acts[..|acts| - 1], acts[|acts| - 1];
    if a.Register? {
      UsersMembers(Regs(Count(before), |Flatten(a.args)|), reg);
    }
  }

  lemma UsersMembers(regs: seq<nat>, reg: nat)
    ensures User(reg) in Users(regs) <==> reg in regs
  {
    if reg in regs {
      var i :| 0 <= i < |regs| && regs[i] == reg;
      assert Users(regs)[i] == User(reg);
    }
  }

  lemma {:induction false} TakenAscends(acts: seq<Act>, w: Which)
    ensures forall i, j | 0 <= i < j < |Taken(acts, w)| :: Taken(acts, w)[i] < Taken(acts, w)[j]
    ensures forall i | 0 <= i < |Taken(acts, w)| :: Taken(acts, w)[i] < Count(acts)
    decreases |acts|
  {
    if acts != [] {
      TakenAscends(acts[..|acts| - 1], w);
    }
  }

  /** Only the list of the first resolve or reject ever runs, it runs its registrations in order,
      none of them twice, and all with the arguments of that first call. */
  lemma CallbacksRunOnce(acts: seq<Act>, w: Which)
    requires IsRun(acts)
    ensures !(Winner(acts).Some? && Winner(acts).value.0 == w) ==> Get(After(acts), w).ran == []
    ensures RegsOf(Get(After(acts), w).ran) <= Taken(acts, w)
    ensures forall i, j | 0 <= i < j < |Get(After(acts), w).ran| ::
              Get(After(acts), w).ran[i].0 < Get(After(acts), w).ran[j].0
    ensures forall i | 0 <= i < |Get(After(acts), w).ran| :: Get(After(acts), w).ran[i].1 == Winner(acts).value.1
  {
    var ran := Get(After(acts), w).ran;
    RunInv(acts);
    TakenAscends(acts, w);
    assert forall i | 0 <= i < |ran| :: RegsOf(ran)[i] == ran[i].0;
  }

  /** When nothing was thrown and the loop is over, every registration the list took has run. */
  lemma CallbacksAllRun(acts: seq<Act>, w: Which)
    requires IsRun(acts) && Throw !in acts && Winner(acts).Some? && Winner(acts).value.0 == w
    requires OnlyScripts(After(acts).stack)
    ensures RegsOf(Get(After(acts), w).ran) == Taken(acts, w)
    ensures forall reg :: reg in RegsOf(Get(After(acts), w).ran) <==> HandedOver(acts, w, reg)
  {
    forall reg ensures reg in Taken(acts, w) <==> HandedOver(acts, w, reg) {
      TakenExactly(acts, w, reg);
    }
    AllTakenRun(acts, w);
  }

  lemma AllTakenRun(acts: seq<Act>, w: Which)
    requires IsRun(acts) && Throw !in acts && Winner(acts).Some? && Winner(acts).value.0 == w
    requires OnlyScripts(After(acts).stack)
    ensures RegsOf(Get(After(acts), w).ran) == Taken(acts, w)
  {
    var s := After(acts);
    RunInv(acts);
    assert !OneLoop(s.stack, w, Winner(acts).value.1);
    assert Get(s, w).accepted[..|Get(s, w).accepted|] == Get(s, w).accepted;
  }

  /** `isResolved` and `isRejected` tell which of the two was called first, at every point a
      callback or caller can look. */
  lemma ResolvedMeansWon(acts: seq<Act>, w: Which)
    requires IsRun(acts)
    ensures Get(After(acts), w).x.Resolved() <==> Winner(acts).Some? && Winner(acts).value.0 == w
  {
    RunInv(acts);
  }

  lemma {:induction false} WinnerStays(acts: seq<Act>, more: seq<Act>)
    requires Winner(acts).Some?
    ensures Winner(acts + more) == Winner(acts)
  {
    if !acts[0].Fire? {
      WinnerStays(acts[1..], more);
      assert (acts + more)[1..] == acts[1..] + more;
    }
  }

  lemma {:induction false} RunPrefix(acts: seq<Act>, more: seq<Act>)
    requires IsRun(acts + more)
    ensures IsRun(acts)
    decreases |more|
  {
    if more != [] {
      assert (acts + more)[..|acts + more| - 1] == acts + more[..|more| - 1];
      RunPrefix(acts, more[..|more| - 1]);
    } else {
      assert acts + more == acts;
    }
  }

  /** Once true, always true. */
  lemma ResolvedForever(acts: seq<Act>, more: seq<Act>, w: Which)
    requires IsRun(acts + more)
    ensures IsRun(acts)
    ensures Get(After(acts), w).x.Resolved() ==> Get(After(acts + more), w).x.Resolved()
    ensures Get(After(acts), w).x.Resolved() ==> !Get(After(acts + more), Other(w)).x.Resolved()
  {
    RunPrefix(acts, more);
    ResolvedMeansWon(acts, w);
    ResolvedMeansWon(acts + more, w);
    ResolvedMeansWon(acts + more, Other(w));
    if Get(After(acts), w).x.Resolved() {
      WinnerStays(acts, more);
    }
  }

  // ---- the machine is what the objects do ----

  /** `jQuery.Deferred`: two simple deferreds, each with the `cancel` of the other in its list. */
  class DeferredObject {
    const done: SimpleDeferred
    const fail: SimpleDeferred
    /** The call stack and the exception under way. */
    var stack: seq<Frame>
    var throwing: bool
    /** The history: the next registration to be handed out, and what the lists took and ran. */
    ghost var next: nat
    ghost var accepted: map<Which, seq<nat>>
    ghost var ran: map<Which, seq<(nat, Call)>>
    ghost var threw: bool

    ghost predicate Valid()
      reads this
    {
      done != fail && accepted.Keys == {DoneList, FailList} && ran.Keys == {DoneList, FailList}
    }

    ghost function Value(): State
      requires Valid()
      reads this, done, fail
    {
      State(Tracked(done.Value(), accepted[DoneList], ran[DoneList]),
            Tracked(fail.Value(), accepted[FailList], ran[FailList]),
            stack, throwing, next, threw)
    }

    constructor ()
      ensures Valid() && fresh(done) && fresh(fail) && Value() == Start()
    {
      done := new SimpleDeferred();
      fail := new SimpleDeferred();
      stack, throwing, next, threw := [], false, 0, false;
      accepted, ran := map[DoneList := [], FailList := []], map[DoneList := [], FailList := []];
      new;
      FlattenSingle(Fn(CancelOther));
      var _ := done.Done([Fn(CancelOther)]);
      var _ := fail.Done([Fn(CancelOther)]);
    }

    function Half(w: Which): SimpleDeferred {
      if w.DoneList? then done else fail
    }

    /** `done` or `fail`, called by user code. */
    method Register(w: Which, args: seq<Arg>)
      requires Valid() && UserRuns(Value()) && Numbered(args, next)
      modifies this, done, fail
      ensures Valid() && Value() == Next(old(Value()), Act.Register(w, args))
    {
      ghost var regs, was := Regs(next, |Flatten(args)|), Get(Value(), w).x;
      var again := Half(w).Done(args);
      assert again.Some? <==> !was.cancelled && was.fired.Some? && was.Register([]).MayFire();
      if !Half(w).cancelled {
        accepted := accepted[w := accepted[w] + regs];
      }
      next := next + |Flatten(args)|;
      if again.Some? {
        stack := [Loop(w, again.value)] + stack;
      }
    }

    /** `resolveWith` or `rejectWith`, called by user code. */
    method Fire(w: Which, call: Call)
      requires Valid() && UserRuns(Value())
      modifies this, done, fail
      ensures Valid() && Value() == Next(old(Value()), Act.Fire(w, call))
    {
      var started := Half(w).StartResolve();
      if started {
        stack := [Loop(w, call)] + stack;
      }
    }

    /** One turn of the loop of resolveWith on top of the stack, or its finally block; or an
        exception leaves user code. */
    method GoOn()
      requires Valid() && Enabled(Value(), Internal)
      modifies this, done, fail
      ensures Valid() && Value() == InternalAct(old(Value()))
    {
      if stack[0].Script? {
        stack := stack[1..];
        return;
      }
      var w, call := stack[0].which, stack[0].call;
      if throwing || Half(w).callbacks == [] {
        Half(w).FinishResolve(call);
        stack := stack[1..];
      } else {
        CallFirst(w, call);
      }
    }

    /** `callbacks.shift().apply( context, args )` */
    method CallFirst(w: Which, call: Call)
      requires Valid() && Enabled(Value(), Internal)
      requires !throwing && stack[0] == Loop(w, call) && Half(w).callbacks != []
      modifies this, done, fail
      ensures Valid() && Value() == InternalAct(old(Value()))
    {
      var callback := Half(w).Shift();
      match callback {
        case CancelOther =>
          Half(Other(w)).Cancel();
        case User(reg) =>
          ran := ran[w := ran[w] + [(reg, call)]];
          stack := [Script] + stack;
      }
    }

    method Perform(a: Act)
      requires Valid() && Enabled(Value(), a)
      modifies this, done, fail
      ensures Valid() && Value() == Next(old(Value()), a)
    {
      match a {
        case Turn => stack, throwing := [Script], false;
        case Register(w, args) => Register(w, args);
        case Fire(w, call) => Fire(w, call);
        case Return => stack := stack[1..];
        case Throw => throwing, threw := true, true;
        case Catch => throwing := false;
        case Internal => GoOn();
      }
    }

    /** On every run the objects stand where the machine stands. */
    method Play(acts: seq<Act>)
      requires Valid() && Value() == Start() && IsRun(acts)
      modifies this, done, fail
      ensures Valid() && Value() == After(acts)
    {
      for i := 0 to |acts|
        invariant Valid() && IsRun(acts[..i]) && Value() == After(acts[..i])
      {
        assert acts == acts[..i + 1] + acts[i + 1..] && acts[..i + 1][..i] == acts[..i];
        RunPrefix(acts[..i + 1], acts[i + 1..]);
        Perform(acts[i]);
      }
      assert acts[..|acts|] == acts;
    }
  }
}
