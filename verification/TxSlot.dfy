/**
 One transmit slot: attempts made with `transmit_raw`, the hardware, and the interrupt handler that
 passes results to the waiting attempt through the slot's result signal.

 Disabling a slot does not end a transmission that is under way, and the hardware may mark a slot as
 done without it having been used.
 */
module TxSlot {
  import opened Wrappers
  import opened Signals

  datatype SlotStatus = Disabled | Ready

  // What the signal holds: nothing, or the outcome the handler stored, with the time it did so and
  // the attempts whose transmission it came from.
  datatype Signal = PendingOrInactive | Signalled(outcome: Outcome, time: nat, from: set<nat>)

  // Where the current attempt is. `Returning` holds what the attempt will return once the guard ran;
  // nothing when the attempt was dropped.
  datatype Phase =
    | Inactive
    | Guarded(parametersOk: bool)
    | Armed
    | Waiting
    | Returning(result: Option<Returned>)
    | SlotReleased(result: Option<Returned>)

  datatype Returned = SetupError | Result(signal: Signal)

  // `onAir` are the attempts the hardware is still transmitting, `raised` those that ended with an
  // outcome for which the interrupt status bit is still set. `shielded` says that the hardware was
  // settled when the attempt reset its signal, and that it has not marked the slot since.
  datatype State = State(
    slot: SlotStatus, signal: Signal, phase: Phase,
    attempt: nat, guardRuns: nat, now: nat, resetAt: nat, shielded: bool,
    onAir: set<nat>, raised: map<Outcome, set<nat>>,
    last: Option<Returned>)

  datatype Event =
    | Call(parametersOk: bool)
    | Reset
    | Start
    | Poll
    | Drop
    | GuardSlot
    | GuardSignal
    | HwEnd(which: nat, outcome: Outcome)
    | HwMark(outcome: Outcome)
    | Interrupt(outcome: Outcome)

  predicate Enabled(s: State, e: Event) {
    match e
    case Call(_) => s.phase == Inactive
    case Reset => s.phase == Guarded(true)
    case Start => s.phase == Armed
    case Poll => s.phase == Waiting || s.phase == Guarded(false)
    case Drop => s.phase == Waiting || s.phase == Guarded(false)
    case GuardSlot => s.phase.Returning?
    case GuardSignal => s.phase.SlotReleased?
    case HwEnd(which, _) => which in s.onAir
    case HwMark(_) => true
    case Interrupt(outcome) => outcome in s.raised
  }

  function Raise(raised: map<Outcome, set<nat>>, outcome: Outcome, from: set<nat>): (r: map<Outcome, set<nat>>) {
    raised[outcome := (if outcome in raised then raised[outcome] else {}) + from]
  }

  // Nothing of an earlier attempt is left in the hardware.
  predicate Settled(s: State) {
    s.onAir == {} && s.raised == map[]
  }

  // The attempt has reset its signal and not taken a result yet.
  predicate Exposed(s: State) {
    s.phase == Armed || s.phase == Waiting
  }

  function Next(s0: State, e: Event): (s': State)
    requires Enabled(s0, e)
  {
    var s := s0.(now := s0.now + 1);
    match e
    case Call(ok) => s.(phase := Guarded(ok), attempt := s.attempt + 1)
    case Reset => s.(phase := Armed, signal := PendingOrInactive, resetAt := s.now, shielded := Settled(s))
    case Start => s.(phase := Waiting, slot := Ready, onAir := s.onAir + {s.attempt})
    case Poll =>
      if s.phase == Guarded(false) then s.(phase := Returning(Some(SetupError)))
      else if s.signal == PendingOrInactive then s
      else s.(phase := Returning(Some(Result(s.signal))), signal := PendingOrInactive)
    case Drop => s.(phase := Returning(None))
    case GuardSlot => s.(phase := SlotReleased(s.phase.result), slot := Disabled)
    case GuardSignal =>
      s.(phase := Inactive, signal := PendingOrInactive, guardRuns := s.guardRuns + 1, last := s.phase.result)
    case HwEnd(which, outcome) =>
      s.(onAir := s.onAir - {which}, raised := Raise(s.raised, outcome, {which}))
    case HwMark(outcome) =>
      s.(raised := Raise(s.raised, outcome, {}), shielded := s.shielded && !Exposed(s))
    case Interrupt(outcome) =>
      s.(signal := Signalled(outcome, s.now, s.raised[outcome]), raised := s.raised - {outcome},
         slot := if outcome == Success then s.slot else Disabled)
  }

  const INITIAL := State(Disabled, PendingOrInactive, Inactive, 0, 0, 0, 0, true, {}, map[], None)

  // The result an attempt has taken from the signal and not returned yet, or has just returned.
  function Taken(s: State): (r: Option<Returned>) {
    match s.phase
    case Returning(result) => result
    case SlotReleased(result) => result
    case Inactive => s.last
    case _ => None
  }

  // A result signalled since the attempt's own reset, which is about the attempt itself if it was
  // shielded.
  predicate Own(s: State, signal: Signal) {
    signal.Signalled? ==> s.resetAt < signal.time && (s.shielded ==> signal.from == {s.attempt})
  }

  predicate IsStarted(s: State) {
    s.phase != Armed && !s.phase.Guarded?
  }

  ghost predicate Inv(s: State) {
    && s.resetAt <= s.now
    && s.guardRuns == (if s.phase == Inactive then s.attempt else s.attempt - 1)
    && (s.slot != Disabled ==> s.phase == Waiting || s.phase.Returning?)
    && (s.phase == Waiting && s.signal == PendingOrInactive ==> s.slot == Ready)
    && (Exposed(s) ==> Own(s, s.signal))
    && (Taken(s).Some? && Taken(s).value.Result? ==> Taken(s).value.signal.Signalled? && Own(s, Taken(s).value.signal))
    && HardwareInv(s)
  }

  // What is in the hardware comes from attempts that were started, and all that a shielded attempt
  // finds there is its own transmission.
  ghost predicate HardwareInv(s: State) {
    && (forall n :: n in s.onAir ==> n < s.attempt || (n == s.attempt && IsStarted(s)))
    && (forall o, n :: o in s.raised && n in s.raised[o] ==> n < s.attempt || (n == s.attempt && IsStarted(s)))
    && (s.phase == Armed && s.shielded ==> Settled(s))
    && (s.phase == Waiting && s.shielded ==>
          s.onAir <= {s.attempt} && forall o :: o in s.raised ==> s.raised[o] == {s.attempt})
  }

  lemma NextKeepsHardwareInv(s: State, e: Event)
    requires HardwareInv(s) && Enabled(s, e)
    ensures HardwareInv(Next(s, e))
  {
  }

  lemma NextKeepsInv(s: State, e: Event)
    requires Inv(s) && Enabled(s, e)
    ensures Inv(Next(s, e))
  {
    NextKeepsHardwareInv(s, e);
    hide HardwareInv;
  }

  ghost predicate IsRun(run: seq<State>, events: seq<Event>) {
    && |run| == |events| + 1
    && run[0] == INITIAL
    && forall i :: 0 <= i < |events| ==> Enabled(run[i], events[i]) && run[i + 1] == Next(run[i], events[i])
  }

  lemma {:induction false} RunKeepsInv(run: seq<State>, events: seq<Event>, i: nat)
    requires IsRun(run, events) && i < |run|
    ensures Inv(run[i])
  {
    if 0 < i {
      RunKeepsInv(run, events, i - 1);
      NextKeepsInv(run[i - 1], events[i - 1]);
    }
  }

  /**
   In every run each attempt's guard runs once: when no attempt is being made, all have been
   guarded and the slot is disabled; the guard leaves the slot disabled and the signal reset. It is
   ready as long as an attempt waits for a result.
   */
  lemma GuardRunsOnce(run: seq<State>, events: seq<Event>, i: nat)
    requires IsRun(run, events) && i < |run|
    ensures run[i].guardRuns == if run[i].phase == Inactive then run[i].attempt else run[i].attempt - 1
    ensures run[i].phase == Inactive ==> run[i].slot == Disabled
    ensures run[i].phase == Waiting && run[i].signal == PendingOrInactive ==> run[i].slot == Ready
    ensures i < |events| && events[i].Interrupt? ==>
      run[i + 1].slot == if events[i].outcome == Success then run[i].slot else Disabled
    ensures i < |events| && events[i] == GuardSignal ==>
      run[i + 1].phase == Inactive && run[i + 1].slot == Disabled && run[i + 1].signal == PendingOrInactive
  {
    hide HardwareInv;
    RunKeepsInv(run, events, i);
    if i + 1 < |run| {
      RunKeepsInv(run, events, i + 1);
    }
  }

  /** No attempt returns a result that was signalled before its own reset. */
  lemma NoEarlySignal(run: seq<State>, events: seq<Event>, i: nat)
    requires IsRun(run, events) && i < |run|
    requires Taken(run[i]).Some? && Taken(run[i]).value.Result?
    ensures Taken(run[i]).value.signal.Signalled? && run[i].resetAt < Taken(run[i]).value.signal.time
  {
    hide HardwareInv;
    RunKeepsInv(run, events, i);
  }

  // What a caller can do about it: an attempt is given up only when its result is there.
  predicate Careful(s: State, e: Event) {
    && !e.HwMark?
    && (e.Drop? && s.phase == Waiting ==> s.signal.Signalled?)
  }

  // Nothing is left behind: outside of an attempt's own wait the hardware is settled, and in it the
  // transmission is on the air, or has raised its outcome, or has been signalled.
  ghost predicate Clean(s: State) {
    && (Taken(s).Some? && Taken(s).value.Result? ==> FromOwn(s, Taken(s).value.signal))
    && (s.phase == Armed ==> s.signal == PendingOrInactive)
    && if s.phase != Waiting then Settled(s) else
       || (s.onAir == {s.attempt} && s.raised == map[] && s.signal == PendingOrInactive)
       || (s.onAir == {} && s.signal == PendingOrInactive && exists o :: s.raised == map[o := {s.attempt}])
       || (Settled(s) && FromOwn(s, s.signal))
  }

  predicate FromOwn(s: State, signal: Signal) {
    signal.Signalled? && signal.from == {s.attempt}
  }

  lemma NextKeepsClean(s: State, e: Event)
    requires Clean(s) && Enabled(s, e) && Careful(s, e)
    ensures Clean(Next(s, e))
  {
    if s.phase == Waiting && e.HwEnd? {
      assert s.onAir == {s.attempt} && {} + {e.which} == {s.attempt};
      assert Next(s, e).raised == map[e.outcome := {s.attempt}] && Next(s, e).onAir == {};
    } else if e.Start? {
      assert {} + {s.attempt} == {s.attempt};
    } else if s.phase == Waiting && e.Interrupt? {
      assert e.outcome in s.raised;
      var o :| s.raised == map[o := {s.attempt}];
      assert o == e.outcome && s.raised[o] == {s.attempt};
      assert Next(s, e).raised == map[];
    }
  }

  /**
   As long as no attempt is given up before its result is there, and no slot is marked unused, the
   hardware is settled before every attempt, and every attempt returns its own result.
   */
  lemma {:induction false} CarefulRun(run: seq<State>, events: seq<Event>, i: nat)
    requires IsRun(run, events) && i < |run|
    requires forall j :: 0 <= j < i ==> Careful(run[j], events[j])
    ensures run[i].phase != Waiting ==> Settled(run[i])
    ensures Taken(run[i]).Some? && Taken(run[i]).value.Result? ==> FromOwn(run[i], Taken(run[i]).value.signal)
    ensures Clean(run[i])
  {
    if 0 < i {
      CarefulRun(run, events, i - 1);
      assert Careful(run[i - 1], events[i - 1]);
      NextKeepsClean(run[i - 1], events[i - 1]);
    }
  }

  predicate CanExec(s: State, events: seq<Event>)
    decreases |events|
  {
    events == [] || (Enabled(s, events[0]) && CanExec(Next(s, events[0]), events[1..]))
  }

  function Exec(s: State, events: seq<Event>): (s': State)
    requires CanExec(s, events)
    decreases |events|
  {
    if events == [] then s else Exec(Next(s, events[0]), events[1..])
  }

  lemma ExecStep(s: State, e: Event, rest: seq<Event>)
    requires Enabled(s, e) && CanExec(Next(s, e), rest)
    ensures CanExec(s, [e] + rest) && Exec(s, [e] + rest) == Exec(Next(s, e), rest)
  {
    assert ([e] + rest)[1..] == rest;
  }

  // Whether the attempt is given up.
  predicate Drops(events: seq<Event>) {
    exists i :: 0 <= i < |events| && events[i] == Drop
  }

  // Where an attempt made with these parameters can be, and what it returns.
  predicate GoesWith(s: State, parametersOk: bool, dropped: bool) {
    match s.phase
    case Guarded(ok) => ok == parametersOk && !dropped
    case Armed => parametersOk && !dropped
    case Waiting => parametersOk && !dropped
    case _ =>
      && (Taken(s) == None <==> dropped)
      && (Taken(s) == Some(SetupError) <==> !parametersOk && !dropped)
  }

  lemma {:induction false} StaysWith(s: State, events: seq<Event>, parametersOk: bool, dropped: bool)
    requires Inv(s) && CanExec(s, events) && GoesWith(s, parametersOk, dropped)
    ensures Inv(Exec(s, events)) && s.attempt <= Exec(s, events).attempt
    ensures Exec(s, events).attempt == s.attempt ==>
      GoesWith(Exec(s, events), parametersOk, dropped || Drops(events))
    decreases |events|
  {
    hide Inv;
    if events != [] {
      var e := events[0];
      NextKeepsInv(s, e);
      if e.Call? {
        AttemptGrows(Next(s, e), events[1..]);
      } else {
        StaysWith(Next(s, e), events[1..], parametersOk, dropped || e == Drop);
        DropsStep(events);
      }
    }
  }

  lemma DropsStep(events: seq<Event>)
    requires events != []
    ensures Drops(events) <==> events[0] == Drop || Drops(events[1..])
  {
    if Drops(events) && events[0] != Drop {
      var i :| 0 <= i < |events| && events[i] == Drop;
      assert events[1..][i - 1] == Drop;
    }
    if Drops(events[1..]) {
      var i :| 0 <= i < |events[1..]| && events[1..][i] == Drop;
      assert events[i + 1] == Drop;
    }
  }

  /**
   Whatever happens to a call, it returns nothing just when it is dropped, a setup error just when its
   parameters were bad and it is not dropped, and otherwise a result.
   */
  lemma CallReturns(s: State, events: seq<Event>)
    requires Inv(s) && s.phase.Guarded? && CanExec(s, events)
    requires Exec(s, events).attempt == s.attempt && Exec(s, events).phase == Inactive
    ensures var last := Exec(s, events).last;
      && (last == None <==> Drops(events))
      && (last == Some(SetupError) <==> !s.phase.parametersOk && !Drops(events))
  {
    StaysWith(s, events, s.phase.parametersOk, false);
  }

  // The attempt which is being made in `s` returns a result.
  ghost predicate Returns(s: State, events: seq<Event>, signal: Signal) {
    && CanExec(s, events)
    && var s' := Exec(s, events);
    s'.attempt == s.attempt && s'.phase == Inactive && s'.last == Some(Result(signal))
  }

  // The slot is not marked between the reset of an attempt and the poll that takes its result.
  predicate Quiet(s: State, events: seq<Event>)
    requires CanExec(s, events)
    decreases |events|
  {
    events == [] || (!(Exposed(s) && events[0].HwMark?) && Quiet(Next(s, events[0]), events[1..]))
  }

  lemma {:induction false} StaysShielded(s: State, events: seq<Event>)
    requires Inv(s) && s.shielded && !s.phase.Guarded? && CanExec(s, events) && Quiet(s, events)
    ensures Inv(Exec(s, events)) && s.attempt <= Exec(s, events).attempt
    ensures Exec(s, events).attempt == s.attempt ==> Exec(s, events).shielded
    decreases |events|
  {
    hide Inv;
    if events != [] {
      var e := events[0];
      NextKeepsInv(s, e);
      if e.Call? {
        AttemptGrows(Next(s, e), events[1..]);
      } else {
        StaysShielded(Next(s, e), events[1..]);
      }
    }
  }

  lemma {:induction false} AttemptGrows(s: State, events: seq<Event>)
    requires Inv(s) && CanExec(s, events)
    ensures Inv(Exec(s, events)) && s.attempt <= Exec(s, events).attempt
    decreases |events|
  {
    hide Inv;
    if events != [] {
      NextKeepsInv(s, events[0]);
      AttemptGrows(Next(s, events[0]), events[1..]);
    }
  }

  // A waiting attempt returns what has been signalled.
  lemma ReturnsSignal(s: State)
    requires s.phase == Waiting && s.signal.Signalled?
    ensures var events := [Poll, GuardSlot, GuardSignal]; Returns(s, events, s.signal) && Quiet(s, events)
  {
    var s1 := Next(s, Poll);
    var s2 := Next(s1, GuardSlot);
    ExecStep(s2, GuardSignal, []);
    ExecStep(s1, GuardSlot, [GuardSignal]);
    ExecStep(s, Poll, [GuardSlot, GuardSignal]);
    assert [GuardSlot] + [GuardSignal] == [GuardSlot, GuardSignal];
    assert [Poll] + [GuardSlot, GuardSignal] == [Poll, GuardSlot, GuardSignal];
  }

  lemma ReturnsLater(s: State, e: Event, rest: seq<Event>, signal: Signal)
    requires Enabled(s, e) && !e.Call? && Returns(Next(s, e), rest, signal)
    ensures Returns(s, [e] + rest, signal)
    ensures Quiet(Next(s, e), rest) && !(Exposed(s) && e.HwMark?) ==> Quiet(s, [e] + rest)
  {
    ExecStep(s, e, rest);
    assert ([e] + rest)[1..] == rest;
  }

  // A status bit that is set when an attempt has reset its signal gets returned by it.
  lemma StaleInterrupt(s: State, outcome: Outcome) returns (events: seq<Event>, signal: Signal)
    requires Inv(s) && s.phase == Armed && outcome in s.raised
    ensures Returns(s, events, signal) && Quiet(s, events) && signal.Signalled? && s.attempt !in signal.from
    ensures signal.from == s.raised[outcome]
  {
    var s1 := Next(s, Start);
    var s2 := Next(s1, Interrupt(outcome));
    signal := s2.signal;
    events := [Poll, GuardSlot, GuardSignal];
    ReturnsSignal(s2);
    ReturnsLater(s1, Interrupt(outcome), events, signal);
    events := [Interrupt(outcome)] + events;
    ReturnsLater(s, Start, events, signal);
    events := [Start] + events;
  }

  // How what an earlier attempt left behind gets returned by this one.
  lemma StaleResult(s: State) returns (events: seq<Event>, signal: Signal)
    requires Inv(s) && s.phase == Armed && !Settled(s)
    ensures Returns(s, events, signal) && Quiet(s, events) && signal.Signalled? && s.attempt !in signal.from
  {
    if s.raised == map[] {
      var which :| which in s.onAir;
      var e := HwEnd(which, Failed(Timeout));
      NextKeepsInv(s, e);
      events, signal := StaleInterrupt(Next(s, e), Failed(Timeout));
      ReturnsLater(s, e, events, signal);
      events := [e] + events;
    } else {
      var outcome :| outcome in s.raised;
      events, signal := StaleInterrupt(s, outcome);
    }
  }

  // And how a mark does, which is no attempt's result at all.
  lemma MarkedResult(s: State) returns (events: seq<Event>, signal: Signal)
    requires Inv(s) && s.phase == Armed && Settled(s)
    ensures Returns(s, events, signal) && signal.Signalled? && signal.from == {}
  {
    var e := HwMark(Success);
    NextKeepsInv(s, e);
    events, signal := StaleInterrupt(Next(s, e), Success);
    ReturnsLater(s, e, events, signal);
    events := [e] + events;
  }

  /**
   An attempt is certain to return its own result just when nothing is left in the hardware as it
   resets its signal, and the slot is not marked unused from then until it has its result.
   */
  lemma OwnResultIffSettled(s0: State, quiet: bool)
    requires Inv(s0) && s0.phase == Guarded(true)
    ensures var s := Next(s0, Reset);
      Settled(s0) && quiet <==>
      forall events, signal :: Returns(s, events, signal) && (quiet ==> Quiet(s, events)) ==> FromOwn(s, signal)
  {
    var s := Next(s0, Reset);
    NextKeepsInv(s0, Reset);
    if !Settled(s0) {
      var events, signal := StaleResult(s);
      assert !FromOwn(s, signal);
    } else if !quiet {
      var events, signal := MarkedResult(s);
      assert !FromOwn(s, signal);
    } else {
      forall events, signal | Returns(s, events, signal) && Quiet(s, events)
        ensures FromOwn(s, signal)
      {
        StaysShielded(s, events);
      }
    }
  }

  // Give up an attempt and make the next one.
  const GIVE_UP := [Drop, GuardSlot, GuardSignal, Call(true)]

  lemma GiveUp(s: State)
    requires s.phase == Waiting
    ensures CanExec(s, GIVE_UP)
    ensures var s' := Exec(s, GIVE_UP);
      s'.phase == Guarded(true) && s'.onAir == s.onAir && s'.raised == s.raised && s'.attempt == s.attempt + 1
  {
    var s1 := Next(s, Drop);
    var s2 := Next(s1, GuardSlot);
    var s3 := Next(s2, GuardSignal);
    ExecStep(s3, Call(true), []);
    ExecStep(s2, GuardSignal, [Call(true)]);
    ExecStep(s1, GuardSlot, [GuardSignal, Call(true)]);
    ExecStep(s, Drop, [GuardSlot, GuardSignal, Call(true)]);
    assert [GuardSignal] + [Call(true)] == [GuardSignal, Call(true)];
    assert [GuardSlot] + [GuardSignal, Call(true)] == [GuardSlot, GuardSignal, Call(true)];
    assert [Drop] + [GuardSlot, GuardSignal, Call(true)] == [Drop, GuardSlot, GuardSignal, Call(true)];
  }

  /**
   Giving up an attempt, in a run that was careful until then, leaves the hardware settled for the next
   one just when the result was there already. Otherwise `StaleResult` has the next one return it.
   */
  lemma DropIsHarmlessIff(s: State)
    requires Clean(s) && s.phase == Waiting
    ensures CanExec(s, GIVE_UP) && (Settled(Exec(s, GIVE_UP)) <==> s.signal.Signalled?)
  {
    GiveUp(s);
    if !s.signal.Signalled? && s.onAir == {} {
      var o :| s.raised == map[o := {s.attempt}];
      assert o in s.raised;
    }
  }

  // The slot's result signal is in the state of the model.
  ghost predicate Mirrors(signal: HardwareTxResultSignal, s: State)
    reads signal
  {
    && signal.Valid()
    && signal.Waiting() == if s.signal == PendingOrInactive then None else Some(s.signal.outcome)
  }

  // One event, carried out on the result signal. What a poll hands out is what the attempt returns.
  method Follow(signal: HardwareTxResultSignal, s: State, e: Event) returns (ready: Option<Outcome>)
    requires Mirrors(signal, s) && Enabled(s, e)
    modifies signal
    ensures Mirrors(signal, Next(s, e))
    ensures s.phase == Waiting && e == Poll ==>
      Next(s, e).phase == if ready == None then Waiting else Returning(Some(Result(s.signal)))
    ensures ready.Some? ==> s.signal.Signalled? && s.signal.outcome == ready.value
  {
    ready := None;
    match e
    case Reset => signal.Reset();
    case Poll =>
      if s.phase == Waiting {
        ready := signal.Poll();
      }
    case GuardSignal => signal.Reset();
    case Interrupt(outcome) => signal.Signal(outcome);
    case _ =>
  }

  /** The result signal, used as a run says, stays in the state of the run. */
  method FollowRun(run: seq<State>, events: seq<Event>) returns (signal: HardwareTxResultSignal)
    requires IsRun(run, events)
    ensures fresh(signal) && Mirrors(signal, run[|events|])
    ensures run[|events|].phase == Inactive && 0 < |events| && events[|events| - 1] == GuardSignal ==>
      signal.Waiting() == None
  {
    signal := new HardwareTxResultSignal();
    for i := 0 to |events|
      invariant fresh(signal) && Mirrors(signal, run[i])
    {
      var _ := Follow(signal, run[i], events[i]);
    }
  }
}
