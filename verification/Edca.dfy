/** The contention window of a transmit queue, after section 10.23.2.2 of IEEE 802.11-2020. */
module Edca {
  import opened Bits

  // The window after `failures` failed attempts: it doubles from one bound to the other.
  function Window(first: nat, last: nat, failures: nat): (w: nat) {
    Min(Pow2(first + failures), Pow2(last)) - 1
  }

  lemma {:induction false} Pow2Monotone(a: nat, b: nat)
    requires a <= b
    ensures Pow2(a) <= Pow2(b)
    decreases b
  {
    if a < b {
      Pow2Monotone(a, b - 1);
    }
  }

  // The window is one less than a power of two, at most 2^31.
  lemma WindowIsOnes(first: nat, last: nat, failures: nat)
    requires first <= last <= 31
    ensures Window(first, last, failures) == Pow2(Min(first + failures, last)) - 1
    ensures Window(first, last, failures) < 0x8000_0000
  {
    Pow2Values();
    Pow2Monotone(last, 31);
    if first + failures < last {
      Pow2Monotone(first + failures, last);
    } else {
      Pow2Monotone(last, first + failures);
    }
  }

  lemma WindowStep(first: nat, last: nat, failures: nat)
    requires first <= last
    ensures Window(first, last, failures + 1) ==
            Min(2 * Window(first, last, failures) + 1, Pow2(last) - 1)
  {
    assert first + (failures + 1) == (first + failures) + 1;
  }

  class EdcaContentionState {
    // The range of contention window exponents.
    const first: nat
    const last: nat
    var currentCw: nat
    var shortRetryCount: nat
    var longRetryCount: nat
    ghost var failures: nat

    ghost predicate Valid()
      reads this
    {
      first <= last <= 31 && currentCw == Window(first, last, failures)
    }

    constructor (first: nat, last: nat)
      requires first <= last <= 31
      ensures this.first == first && this.last == last && failures == 0 && Valid()
    {
      this.first, this.last := first, last;
      currentCw := Pow2(first) - 1;
      shortRetryCount, longRetryCount, failures := 0, 0, 0;
      WindowIsOnes(first, last, 0);
    }

    method AdvanceContentionWindow()
      requires Valid()
      modifies `currentCw, `failures
      ensures Valid() && failures == old(failures) + 1
    {
      WindowIsOnes(first, last, failures);
      WindowStep(first, last, failures);
      // Shift left and set the lowest bit, in 32 bits.
      currentCw := (2 * currentCw) % 0x1_0000_0000;
      currentCw := currentCw + 1;
      currentCw := Min(currentCw, Pow2(last) - 1);
      failures := failures + 1;
    }

    method IncrementSrc()
      requires Valid()
      modifies `shortRetryCount, `currentCw, `failures
      ensures Valid() && failures == old(failures) + 1
      ensures shortRetryCount == (old(shortRetryCount) + 1) % 256
    {
      shortRetryCount := (shortRetryCount + 1) % 256;
      AdvanceContentionWindow();
    }

    method ResetSrc()
      modifies `shortRetryCount
      ensures shortRetryCount == 0
    {
      shortRetryCount := 0;
    }

    method IncrementLrc()
      requires Valid()
      modifies `longRetryCount, `currentCw, `failures
      ensures Valid() && failures == old(failures) + 1
      ensures longRetryCount == (old(longRetryCount) + 1) % 256
    {
      longRetryCount := (longRetryCount + 1) % 256;
      AdvanceContentionWindow();
    }

    /** Masking a random number by the window draws from the window and nothing beyond. */
    method RandomBackoffSlotCount(random: nat) returns (slots: nat)
      requires Valid()
      ensures slots == random % (Window(first, last, failures) + 1)
    {
      hide And, Pow2;
      WindowIsOnes(first, last, failures);
      AndOnes(random, Min(first + failures, last));
      slots := And(random, currentCw);
    }
  }
}
