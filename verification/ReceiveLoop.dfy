/**
 The receive path as a whole: the DMA engine, the interrupt handler, and the task that takes frames
 out of the DMA list and sleeps when there are none.

 The state keeps only how many descriptors are in which condition. `AbstractStep` and its
 neighbours tie it to the DMA list, step by step.
 */
module ReceiveLoop {
  import opened Bits
  import opened Wrappers
  import opened RxDma
  import opened Signals

  datatype Link = Unread | ToEmpty | ToNull

  // Linked descriptors, completed and empty; lent ones; whether the engine runs, and the link it has
  // read ahead.
  datatype Counts = Counts(done: nat, empty: nat, lent: nat, running: bool, link: Link) {
    predicate Stalled() {
      !running && 0 < empty
    }

    function Restart(): (c: Counts) {
      if Stalled() then this.(running := true, link := Unread) else this
    }

    // The engine completes the descriptor it is at.
    function Complete(): (c: Counts)
      requires running && 0 < empty
    {
      Counts(done + 1, empty - 1, lent, link == ToEmpty || (link == Unread && 1 < empty), Unread)
    }

    // The engine reads the link of the descriptor it is at.
    function ReadAhead(): (c: Counts)
      requires running
    {
      this.(link := if 1 < empty then ToEmpty else ToNull)
    }

    function Detach(): (c: Counts)
      requires 0 < done
    {
      this.(done := done - 1, lent := lent + 1)
    }

    function Attach(): (c: Counts)
      requires 0 < lent
    {
      this.(empty := empty + 1, lent := lent - 1)
    }

    function Clear(): (c: Counts) {
      Counts(0, empty + done, lent, 0 < empty + done, Unread)
    }
  }

  ghost function Abstract(s: Shared): (c: Counts)
    requires s.v.done <= |s.v.chain|
  {
    Counts(s.v.done, |s.v.chain| - s.v.done, |s.v.lent|, s.engine.next.Some?,
           if s.engine.prefetch == NotFetched then Unread
           else if s.engine.prefetch.link.Some? then ToEmpty else ToNull)
  }

  /** The engine of the DMA list moves as the counts say. */
  lemma AbstractStep(s: Shared, step: EngineStep)
    requires EngineInv(s, None)
    ensures EngineInv(Step(s, step), None)
    ensures Abstract(Step(s, step)) ==
      if !Abstract(s).running then Abstract(s) else
      match step
      case Write(_) => Abstract(s)
      case ReadAhead => Abstract(s).ReadAhead()
      case Complete => Abstract(s).Complete()
  {
    StepKeepsInv(s, step);
    if s.engine.next.Some? {
      FactsAt(s, s.v.done);
    }
  }

  lemma AbstractDetach(s: Shared)
    requires EngineInv(s, None) && 0 < s.v.done
    ensures EngineInv(Detach(s), None) && Abstract(Detach(s)) == Abstract(s).Detach()
  {
    DetachKeepsInv(s);
  }

  lemma AbstractAttach(s: Shared, descriptor: nat)
    requires EngineInv(s, if s.v.chain == [] then None else Some(descriptor)) && descriptor in s.v.lent
    ensures Abstract(Attach(s, descriptor)) == Abstract(s).Attach()
  {
  }

  lemma AbstractRestart(s: Shared)
    requires EngineInv(s, None)
    ensures EngineInv(Restart(s), None) && Abstract(Restart(s)) == Abstract(s).Restart()
  {
    if Stalled(s) {
      ReloadKeepsInv(s);
    }
  }

  /** Clearing the DMA list clears the counts. */
  method AbstractClear(list: DmaList)
    requires list.Valid()
    modifies list
    ensures list.Valid() && Abstract(list.S()) == old(Abstract(list.S())).Clear()
  {
    hide LentInv, EngineInv;
    Facts(list.S());
    list.Clear();
    Facts(list.S());
  }

  // Where the receiving task is: not receiving, about to take the head, about to return a malformed
  // frame, about to poll the signal queue, asleep, or between the two halves of clearing the queue.
  datatype Task = Away | Taking | Discarding | Polling | Asleep | Clearing

  // Who is inside an operation of the DMA list, between editing the chain and checking the engine.
  datatype Lock = Free | Receiver | Other

  // `unannounced` counts the completed descriptors whose interrupt has not been taken yet.
  // `waking` is the handler standing between counting a signal and waking the task.
  datatype Rx = Rx(counts: Counts, unannounced: nat, irq: bool,
                   queued: nat, waker: Waker, waking: bool, task: Task, lock: Lock)

  datatype Event =
    | HwReadAhead | HwComplete
    | IrqPut | IrqWake
    | Begin | Abandon | Take(valid: bool) | Discard | Poll | Resume
    | GiveBack | CheckEngine | ClearList | ClearSignals

  predicate Enabled(x: Rx, e: Event) {
    match e
    case HwReadAhead => x.counts.running
    case HwComplete => x.counts.running && 0 < x.counts.empty
    case IrqPut => x.irq && !x.waking
    case IrqWake => x.waking
    case Begin => x.task == Away && x.lock != Receiver
    case Abandon => (x.task == Polling || x.task == Asleep) && x.lock != Receiver
    case Take(_) => x.task == Taking && x.lock == Free
    case Discard => x.task == Discarding && x.lock == Free && 0 < x.counts.lent
    case Poll => x.task == Polling && x.lock != Receiver
    case Resume => x.task == Asleep && x.waker.woken
    case GiveBack => x.lock == Free && (if x.task == Discarding then 1 else 0) < x.counts.lent
    case CheckEngine => x.lock != Free
    case ClearList => x.task == Away && x.lock == Free
    case ClearSignals => x.task == Clearing
  }

  function Next(x: Rx, e: Event): (x': Rx)
    requires Enabled(x, e)
  {
    var c := x.counts;
    match e
    case HwReadAhead => x.(counts := c.ReadAhead())
    case HwComplete => x.(counts := c.Complete(), unannounced := x.unannounced + 1, irq := true)
    case IrqPut => x.(irq := false, unannounced := 0, queued := x.queued + 1, waking := x.queued == 0)
    case IrqWake => x.(waking := false, waker := x.waker.Wake())
    case Begin => x.(task := Taking)
    case Abandon => x.(task := Away)
    case Take(valid) =>
      if c.done == 0 then x.(task := Polling, lock := Receiver) else
      x.(counts := c.Detach(), unannounced := Min(x.unannounced, c.done - 1),
         task := if valid then Away else Discarding, lock := Receiver)
    case Discard => x.(counts := c.Attach(), task := Taking, lock := Receiver)
    case Poll =>
      if x.queued == 0 then x.(waker := x.waker.Register(), task := Asleep)
      else x.(queued := x.queued - 1, task := Taking)
    case Resume => x.(task := Polling)
    case GiveBack => x.(counts := c.Attach(), lock := Other)
    case CheckEngine => x.(counts := c.Restart(), lock := Free)
    case ClearList =>
      x.(counts := c.Clear(), unannounced := 0, task := Clearing)
    case ClearSignals => x.(queued := 0, task := Away)
  }

  // A completed descriptor is linked whose interrupt has been taken.
  predicate Announced(x: Rx) {
    x.unannounced < x.counts.done
  }

  // The DMA list. As in `RxDma.DmaList.Valid`, an engine that stopped beside an empty descriptor has
  // left a completed one behind, except inside an operation which is about to look after it.
  ghost predicate CountsInv(c: Counts, lock: Lock) {
    && (if c.running then 0 < c.empty else c.link == Unread)
    && (c.link == ToEmpty ==> 1 < c.empty)
    && (c.Stalled() && lock == Free ==> 0 < c.done)
  }

  ghost predicate Inv(x: Rx) {
    && CountsInv(x.counts, x.lock)
    && (x.task == Discarding ==> 0 < x.counts.lent)
    // Interrupts: a completion is announced or its interrupt is pending.
    && x.unannounced <= x.counts.done
    && (0 < x.unannounced ==> x.irq)
    // Signals: a sleeping task has no signal waiting, unless its wake-up is under way.
    && (x.task == Asleep ==> x.waker.registered || x.waker.woken)
    && (x.task == Asleep && !x.waker.woken ==> x.queued == 0 || x.waking)
    // A task which found no frame has a signal for every frame announced since.
    && ((x.task == Polling || x.task == Asleep) && Announced(x) ==> 0 < x.queued)
  }

  ghost function Initial(buffers: nat): (x: Rx)
    requires 2 <= buffers
  {
    Rx(Counts(0, buffers, 0, true, Unread), 0, false, 0, Waker(false, false), false, Away, Free)
  }

  ghost predicate IsRun(run: seq<Rx>, events: seq<Event>) {
    && |run| == |events| + 1
    && (exists buffers :: 2 <= buffers && run[0] == Initial(buffers))
    && forall i :: 0 <= i < |events| ==> Enabled(run[i], events[i]) && run[i + 1] == Next(run[i], events[i])
  }

  // The counts change in a way the DMA list allows.
  lemma CountsKeepInv(x: Rx, e: Event)
    requires Inv(x) && Enabled(x, e)
    ensures CountsInv(Next(x, e).counts, Next(x, e).lock)
  {
  }

  lemma NextKeepsInv(x: Rx, e: Event)
    requires Inv(x) && Enabled(x, e)
    ensures Inv(Next(x, e))
  {
    CountsKeepInv(x, e);
    hide CountsInv;
  }

  lemma {:induction false} RunKeepsInv(run: seq<Rx>, events: seq<Event>, i: nat)
    requires IsRun(run, events) && i < |run|
    ensures Inv(run[i])
  {
    if 0 < i {
      RunKeepsInv(run, events, i - 1);
      NextKeepsInv(run[i - 1], events[i - 1]);
    }
  }

  /**
   No frame is missed: in every run, a task that sleeps and has neither been woken nor is about to
   be has no signal waiting and no frame in the list whose interrupt was taken.
   */
  lemma NoMissedFrame(run: seq<Rx>, events: seq<Event>, i: nat)
    requires IsRun(run, events) && i < |run|
    requires run[i].task == Asleep && !run[i].waker.woken && !run[i].waking
    ensures run[i].queued == 0 && !Announced(run[i])
    ensures 0 < run[i].counts.done ==> run[i].irq
  {
    RunKeepsInv(run, events, i);
  }

  /**
   In every run, a receive ends only with a valid frame or by being abandoned, a wait ends only by taking
   one signal out of the queue, and a malformed frame is returned before the next one is looked for.
   */
  lemma ReceiveEnds(run: seq<Rx>, events: seq<Event>, i: nat)
    requires IsRun(run, events) && i < |events|
    ensures var x, x', e := run[i], run[i + 1], events[i];
      && (Receiving(x) && !Receiving(x') ==>
            e == Abandon || (e == Event.Take(true) && 0 < x.counts.done && x'.counts.lent == x.counts.lent + 1))
      && (x.task in {Polling, Asleep} && x'.task !in {Polling, Asleep, Away} ==>
            e == Event.Poll && x'.task == Taking && x.queued == x'.queued + 1)
      && (x.task == Discarding && x'.task != Discarding ==>
            e == Discard && x'.task == Taking && x.counts.lent == x'.counts.lent + 1)
  {
  }

  // How many valid frames the task has been handed by the first `n` events of a run, and how many buffers
  // have been given back.
  function Received(run: seq<Rx>, events: seq<Event>, n: nat): (k: nat)
    requires n <= |events| <= |run|
  {
    if n == 0 then 0 else
    Received(run, events, n - 1) + if events[n - 1] == Event.Take(true) && 0 < run[n - 1].counts.done then 1 else 0
  }

  function GivenBack(events: seq<Event>, n: nat): (k: nat)
    requires n <= |events|
  {
    if n == 0 then 0 else GivenBack(events, n - 1) + if events[n - 1] == GiveBack then 1 else 0
  }

  /**
   The lent descriptors are the valid frames received that have not been given back, and the invalid one
   that is about to be discarded. No buffer leaks, and no valid frame is discarded.
   */
  lemma {:induction false} LentAreHeld(run: seq<Rx>, events: seq<Event>, i: nat)
    requires IsRun(run, events) && i < |run|
    ensures run[i].counts.lent + GivenBack(events, i) ==
      Received(run, events, i) + if run[i].task == Discarding then 1 else 0
  {
    if 0 < i {
      LentAreHeld(run, events, i - 1);
      LentStep(run[i - 1], events[i - 1]);
    }
  }

  lemma LentStep(x: Rx, e: Event)
    requires Enabled(x, e)
    ensures var x' := Next(x, e);
      x'.counts.lent + (if x.task == Discarding then 1 else 0) + (if e == GiveBack then 1 else 0) ==
      x.counts.lent + (if x'.task == Discarding then 1 else 0) + (if e == Event.Take(true) && 0 < x.counts.done then 1 else 0)
  {
  }

  // A signal queue is in the state of the model.
  ghost predicate Mirrors(queue: SignalQueue, x: Rx)
    reads queue
  {
    queue.queued == x.queued && queue.waker == x.waker
  }

  // One event, carried out on the signal queue.
  method Follow(queue: SignalQueue, x: Rx, e: Event)
    requires Mirrors(queue, x) && Enabled(x, e)
    modifies queue
    ensures Mirrors(queue, Next(x, e))
  {
    match e
    case IrqPut =>
      var wasEmpty := queue.FetchAdd();
      assert Next(x, e).waking == wasEmpty;
    case IrqWake => queue.Wake();
    case Poll =>
      var ready := queue.Poll();
      assert Next(x, e).task == if ready then Taking else Asleep;
    case ClearSignals => queue.Reset();
    case _ =>
  }

  /**
   The signal queue, used as a run says, stays in the state of the run. So it is the queue itself that
   is empty whenever the task sleeps for good.
   */
  method FollowRun(run: seq<Rx>, events: seq<Event>) returns (queue: SignalQueue)
    requires IsRun(run, events)
    ensures fresh(queue) && Mirrors(queue, run[|events|])
    ensures var x := run[|events|];
      x.task == Asleep && !queue.waker.woken && !x.waking ==> queue.queued == 0 && !Announced(x)
  {
    hide Inv;
    queue := new SignalQueue();
    for i := 0 to |events|
      invariant fresh(queue) && Mirrors(queue, run[i])
    {
      Follow(queue, run[i], events[i]);
    }
    var x := run[|events|];
    if x.task == Asleep && !x.waker.woken && !x.waking {
      NoMissedFrame(run, events, |events|);
    }
  }

  /** A whole `Put` is the handler's two steps. */
  method PutIsTwoSteps(queue: SignalQueue, x: Rx)
    requires Mirrors(queue, x) && Enabled(x, IrqPut)
    modifies queue
    ensures var counted := Next(x, IrqPut); Mirrors(queue, if counted.waking then Next(counted, IrqWake) else counted)
  {
    queue.Put();
  }

  // A frame is being received, and is neither abandoned nor is the list cleared.
  predicate Receiving(x: Rx) {
    x.task == Taking || x.task == Discarding || x.task == Polling || x.task == Asleep
  }

  predicate Ordinary(e: Event) {
    !e.Begin? && !e.Abandon? && !e.ClearList? && !e.ClearSignals?
  }

  // The steps which the receiver and the interrupt handler take without the hardware or anyone else.
  predicate Internal(e: Event) {
    e.IrqPut? || e.IrqWake? || e.Take? || e.Discard? || e.Poll? || e.Resume? || e.CheckEngine?
  }

  // How far the next completed frame is from being taken: how many descriptors can still be filled,
  // how many can be returned, what the engine can read ahead, and where handler and task are.
  datatype Rank = Rank(toFill: nat, lent: nat, unread: nat, steps: nat) {
    predicate Below(r: Rank) {
      || toFill < r.toFill
      || (toFill == r.toFill && lent < r.lent)
      || (toFill == r.toFill && lent == r.lent && unread < r.unread)
      || (toFill == r.toFill && lent == r.lent && unread == r.unread && steps < r.steps)
    }
  }

  function RankOf(x: Rx): (r: Rank) {
    var c := x.counts;
    Rank(c.empty + c.lent, c.lent, match c.link case Unread => 2 case ToNull => 1 case ToEmpty => 0,
         (if x.irq then 10 else 0) + (if x.waking then 5 else 0) + (if x.lock == Free then 0 else 1) +
         match x.task
         case Asleep => if x.waker.woken then 4 else 2
         case Polling => 3
         case _ => 0)
  }

  /**
   Every completed frame is taken: while one is in the list and the task is receiving, the task or
   the handler can always make a step; every step, of whomever, takes the frame or lowers the rank,
   unless it is the engine reading the same link once more.
   */
  lemma FrameIsTaken(x: Rx, e: Event)
    requires Inv(x) && 0 < x.counts.done && Receiving(x)
    ensures exists e' :: Internal(e') && Enabled(x, e')
    ensures Ordinary(e) && Enabled(x, e) && !e.Take? && Next(x, e) != x ==>
      && Receiving(Next(x, e)) && x.counts.done <= Next(x, e).counts.done
      && RankOf(Next(x, e)).Below(RankOf(x))
  {
    InternalStep(x);
  }

  lemma InternalStep(x: Rx)
    requires Inv(x) && 0 < x.counts.done && Receiving(x)
    ensures exists e :: Internal(e) && Enabled(x, e)
  {
    if x.lock != Free {
      assert Enabled(x, CheckEngine);
      return;
    }
    match x.task
    case Taking => assert Enabled(x, Event.Take(true));
    case Discarding => assert Enabled(x, Discard);
    case Polling => assert Enabled(x, Poll);
    case Asleep =>
      if x.waker.woken {
        assert Enabled(x, Resume);
      } else if x.waking {
        assert Enabled(x, IrqWake);
      } else {
        assert Enabled(x, IrqPut);
      }
  }

  function Buffers(x: Rx): (n: nat) {
    x.counts.done + x.counts.empty + x.counts.lent
  }

  // The rank as a number.
  function Weight(r: Rank, buffers: nat): (w: nat) {
    ((buffers + 1) * r.toFill + r.lent) * 63 + r.unread * 21 + r.steps
  }

  lemma LowerWeighsLess(r: Rank, s: Rank, buffers: nat)
    requires r.Below(s) && r.lent <= buffers && r.unread <= 2 && r.steps <= 20
    ensures Weight(r, buffers) < Weight(s, buffers)
  {
    MulLess(buffers + 1, r.toFill, s.toFill);
  }

  lemma WeightBound(r: Rank, buffers: nat)
    requires r.toFill <= buffers && r.lent <= buffers && r.unread <= 2 && r.steps <= 20
    ensures Weight(r, buffers) < 63 * ((buffers + 1) * (buffers + 1))
  {
    MulLess(buffers + 1, r.toFill, buffers + 1);
  }

  lemma RankBound(x: Rx)
    ensures var r := RankOf(x); r.toFill <= Buffers(x) && r.lent <= Buffers(x) && r.unread <= 2 && r.steps <= 20
  {
  }

  // Events in a row which neither take a frame nor just read the same link again.
  ghost predicate Untaken(xs: seq<Rx>, events: seq<Event>) {
    && |xs| == |events| + 1
    && forall i :: 0 <= i < |events| ==>
         && Ordinary(events[i]) && !events[i].Take? && Enabled(xs[i], events[i])
         && xs[i + 1] == Next(xs[i], events[i]) != xs[i]
  }

  lemma BuffersStay(x: Rx, e: Event)
    requires Enabled(x, e)
    ensures Buffers(Next(x, e)) == Buffers(x)
  {
  }

  lemma {:induction false} UntakenLowers(xs: seq<Rx>, events: seq<Event>, i: nat)
    requires Untaken(xs, events) && Inv(xs[0]) && 0 < xs[0].counts.done && Receiving(xs[0]) && i < |xs|
    ensures Inv(xs[i]) && 0 < xs[i].counts.done && Receiving(xs[i]) && Buffers(xs[i]) == Buffers(xs[0])
    ensures i + Weight(RankOf(xs[i]), Buffers(xs[0])) <= Weight(RankOf(xs[0]), Buffers(xs[0]))
  {
    hide Inv, RankOf, Weight, Buffers, Receiving;
    if 0 < i {
      var x, e := xs[i - 1], events[i - 1];
      UntakenLowers(xs, events, i - 1);
      NextKeepsInv(x, e);
      BuffersStay(x, e);
      FrameIsTaken(x, e);
      RankBound(xs[i]);
      LowerWeighsLess(RankOf(xs[i]), RankOf(x), Buffers(xs[0]));
    }
  }

  /**
   While a frame is completed and the task is receiving, fewer than 63 (n + 1)^2 events pass before a
   frame is taken, with n buffers, and until then the task or the handler can always go on.
   */
  lemma TakenInTime(xs: seq<Rx>, events: seq<Event>)
    requires Untaken(xs, events) && Inv(xs[0]) && 0 < xs[0].counts.done && Receiving(xs[0])
    ensures |events| < 63 * ((Buffers(xs[0]) + 1) * (Buffers(xs[0]) + 1))
    ensures exists e :: Internal(e) && Enabled(xs[|events|], e)
  {
    hide Inv, RankOf, Weight, Buffers, Receiving, Enabled, Internal;
    UntakenLowers(xs, events, |events|);
    RankBound(xs[0]);
    WeightBound(RankOf(xs[0]), Buffers(xs[0]));
    InternalStep(xs[|events|]);
  }

  /**
   An engine that stopped beside an empty descriptor is about to be checked, or has left a completed
   frame behind, so that `FrameIsTaken` applies. The check restarts it, and every operation that
   takes or returns a descriptor ends with the check.
   */
  lemma StallEnds(x: Rx, e: Event)
    requires Inv(x) && x.counts.Stalled()
    ensures if x.lock == Free then 0 < x.counts.done else Next(x, CheckEngine).counts.running
    ensures Enabled(x, e) && (e.Take? || e.Discard? || e.GiveBack?) ==>
      Next(x, e).lock != Free && Next(Next(x, e), CheckEngine).counts.running
  {
  }
}
