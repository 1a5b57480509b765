/** Signals from the interrupt handler to a waiting task. */
module Signals {
  import opened Wrappers

  // The waker slot: what the task registered, and whether it has been woken since.
  datatype Waker = Waker(registered: bool, woken: bool) {
    function Register(): (w: Waker) {
      Waker(true, false)
    }

    function Wake(): (w: Waker) {
      if registered then Waker(false, true) else this
    }
  }

  // The result of a transmission from the point of view of accessing the channel.
  datatype Outcome = Success | Failed(error: ChannelAccessError)

  datatype ChannelAccessError = Timeout | Collision

  /** The status of a transmit slot. A signalled outcome is handed out once. */
  class HardwareTxResultSignal {
    var state: nat
    var waker: Waker

    static function Encode(outcome: Outcome): (state: nat) {
      match outcome
      case Success => 1
      case Failed(Timeout) => 2
      case Failed(Collision) => 3
    }

    // The outcome that is waiting, if any.
    ghost function Waiting(): (w: Option<Outcome>)
      requires Valid()
      reads this
    {
      if state == 0 then None else if state == 1 then Some(Success)
      else if state == 2 then Some(Failed(Timeout)) else Some(Failed(Collision))
    }

    ghost predicate Valid()
      reads this
    {
      state <= 3
    }

    constructor ()
      ensures Valid() && Waiting() == None
    {
      state, waker := 0, Waker(false, false);
    }

    method Reset()
      requires Valid()
      modifies `state
      ensures Valid() && Waiting() == None
    {
      state := 0;
    }

    // A later outcome replaces one that was not handed out yet.
    method Signal(outcome: Outcome)
      requires Valid()
      modifies this
      ensures Valid() && Waiting() == Some(outcome) && waker == old(waker).Wake()
    {
      state := Encode(outcome);
      waker := waker.Wake();
    }

    // One poll of the future returned by `wait`.
    method Poll() returns (ready: Option<Outcome>)
      requires Valid()
      modifies this
      ensures Valid() && ready == old(Waiting()) && Waiting() == None
      ensures waker == if ready == None then old(waker).Register() else old(waker)
    {
      if state != 0 {
        var was := state;
        state := 0;
        match was {
          case 1 => ready := Some(Success);
          case 2 => ready := Some(Failed(Timeout));
          case _ => ready := Some(Failed(Collision));
        }
      } else {
        waker := waker.Register();
        ready := None;
      }
    }
  }

  /** Counted signals. Only the first one put into an empty queue wakes the task. */
  class SignalQueue {
    var queued: nat
    var waker: Waker

    constructor ()
      ensures queued == 0 && waker == Waker(false, false)
    {
      queued, waker := 0, Waker(false, false);
    }

    method Put()
      modifies this
      ensures queued == old(queued) + 1
      ensures waker == if old(queued) == 0 then old(waker).Wake() else old(waker)
    {
      var wasEmpty := FetchAdd();
      if wasEmpty {
        Wake();
      }
    }

    // The two accesses of `Put`. A task can run between them.
    method FetchAdd() returns (wasEmpty: bool)
      modifies `queued
      ensures queued == old(queued) + 1 && wasEmpty == (old(queued) == 0)
    {
      wasEmpty := queued == 0;
      queued := queued + 1;
    }

    method Wake()
      modifies `waker
      ensures waker == old(waker).Wake()
    {
      waker := waker.Wake();
    }

    method Reset()
      modifies `queued
      ensures queued == 0
    {
      queued := 0;
    }

    // One poll of the future returned by `next`.
    method Poll() returns (ready: bool)
      modifies this
      ensures ready == (0 < old(queued))
      ensures ready ==> queued == old(queued) - 1 && waker == old(waker)
      ensures !ready ==> queued == 0 && waker == old(waker).Register()
    {
      if queued == 0 {
        waker := waker.Register();
        ready := false;
      } else {
        queued := queued - 1;
        ready := true;
      }
    }
  }
}
