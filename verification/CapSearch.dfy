/**
 The search for a capacitor value of the RF PLL. The register that takes the value keeps nine bits of
 it, so that values below 0 or above 511 reach the other end of its range.
 */
module CapSearch {
  import opened Bits

  function Register(cap: int): (r: nat)
    ensures r < 512
  {
    cap % 512
  }

  function Wrap16(x: int): (r: nat) {
    x % 0x1_0000
  }

  // The register values with which the PLL locks form an interval.
  ghost predicate Interval(locked: nat -> bool) {
    forall a, b, c :: 0 <= a <= b <= c < 512 && locked(a) && locked(c) ==> locked(b)
  }

  predicate Locks(locked: nat -> bool, cap: int) {
    locked(Register(cap))
  }

  // The `i`-th value of a pass: downwards from the initial one, then upwards from the next.
  function Probe(initial: nat, up: bool, i: nat): (cap: int) {
    if up then initial + 1 + i else initial - i
  }

  datatype Tally = Tally(count: nat, sum: nat) {
    function Add(cap: nat): (t: Tally) {
      Tally(count + 1, Wrap16(sum + cap))
    }
  }

  // A pass from its `i`-th probe on. It ends behind the values that lock.
  function Pass(locked: nat -> bool, initial: nat, up: bool, i: nat, t: Tally): (r: Tally)
    requires i <= 10
    decreases 10 - i
  {
    if i == 10 then t else
    var cap := Wrap16(Probe(initial, up, i));
    if Locks(locked, cap) then Pass(locked, initial, up, i + 1, t.Add(cap))
    else if t.count != 0 then t
    else Pass(locked, initial, up, i + 1, t)
  }

  function Search(locked: nat -> bool, initial: nat): (t: Tally) {
    Pass(locked, initial, true, 0, Pass(locked, initial, false, 0, Tally(0, 0)))
  }

  function Average(t: Tally, initial: nat): (cap: nat) {
    if t.count == 0 then initial else t.sum / t.count
  }

  // The value that is programmed.
  function Chosen(locked: nat -> bool, initial: nat): (cap: nat) {
    Average(Search(locked, initial), initial)
  }

  /** Probe ten values down and ten values up, and program the average of those that lock. */
  method InitCap(initial: nat, locked: nat -> bool) returns (cap: nat, result: nat)
    requires initial < 512
    ensures cap == Chosen(locked, initial)
    ensures result / 0x1_0000 == initial && result % 0x1_0000 == cap
  {
    hide Pass;
    var t := Tally(0, 0);
    t := RunPass(locked, initial, false, t);
    t := RunPass(locked, initial, true, t);
    SumFits(locked, initial);
    cap := if t.count == 0 then initial else t.sum / t.count;
    result := initial * 0x1_0000 + cap;
  }

  method RunPass(locked: nat -> bool, initial: nat, up: bool, before: Tally) returns (t: Tally)
    ensures t == Pass(locked, initial, up, 0, before)
  {
    t := before;
    for i := 0 to 10
      invariant Pass(locked, initial, up, 0, before) == Pass(locked, initial, up, i, t)
    {
      var cap := Wrap16(Probe(initial, up, i));
      if locked(Register(cap)) {
        t := t.Add(cap);
      } else if t.count != 0 {
        break;
      }
    }
  }

  lemma {:induction false} PassFits(locked: nat -> bool, initial: nat, up: bool, i: nat, t: Tally)
    requires i <= 10 && t.sum < 0x1_0000
    ensures Pass(locked, initial, up, i, t).sum < 0x1_0000
    decreases 10 - i
  {
    if i < 10 {
      var cap := Wrap16(Probe(initial, up, i));
      PassFits(locked, initial, up, i + 1, if Locks(locked, cap) then t.Add(cap) else t);
    }
  }

  lemma SumFits(locked: nat -> bool, initial: nat)
    ensures var t := Search(locked, initial); t.sum < 0x1_0000 && (t.count != 0 ==> t.sum / t.count <= t.sum)
  {
    hide Pass;
    PassFits(locked, initial, false, 0, Tally(0, 0));
    PassFits(locked, initial, true, 0, Pass(locked, initial, false, 0, Tally(0, 0)));
    var t := Search(locked, initial);
    if t.count != 0 {
      QuotientIsLess(t.sum, t.count);
    }
  }

  lemma QuotientIsLess(a: nat, b: nat)
    requires 0 < b
    ensures a / b <= a
  {
    MulLess(a / b, 0, b);
  }

  // A probe wraps around in 16 bits, which the register does not notice.
  lemma WrapLocks(locked: nat -> bool, cap: int)
    ensures Locks(locked, Wrap16(cap)) <==> Locks(locked, cap)
  {
    assert 0x1_0000 == 512 * 128;
    assert Wrap16(cap) == cap - 512 * (128 * (cap / 0x1_0000));
    ModShift(cap, -128 * (cap / 0x1_0000));
  }

  lemma ModShift(x: int, k: int)
    ensures (x + 512 * k) % 512 == x % 512
  {
  }

  // Twice the sum of all numbers up to `x`. Sums over a range are differences of this.
  function Twice(x: int): (t: int) {
    x * (x + 1)
  }

  // The values probed by `a` to `b`, summed up twice.
  function TwiceSum(initial: nat, up: bool, a: nat, b: nat): (s: int) {
    if up then Twice(initial + b) - Twice(initial + a)
    else Twice(initial - a) - Twice(initial - b)
  }

  lemma TwiceSumStep(initial: nat, up: bool, a: nat, b: nat)
    ensures TwiceSum(initial, up, a, b) == 2 * Probe(initial, up, a) + TwiceSum(initial, up, a + 1, b)
    ensures TwiceSum(initial, up, a, a) == 0
  {
    TwiceStep(initial + 1 + a);
    TwiceStep(initial - a);
  }

  lemma TwiceStep(x: int)
    ensures Twice(x) == Twice(x - 1) + 2 * x
  {
  }

  // A pass of which the probes from `a` to `b` are counted, because just these lock.
  ghost predicate Counts(locked: nat -> bool, initial: nat, up: bool, i: nat, t: Tally, r: Tally, a: nat, b: nat) {
    && i <= a <= b <= 10
    && (forall k :: i <= k < a ==> !LocksAt(locked, initial, up, k))
    && (forall k :: a <= k < b ==> LocksAt(locked, initial, up, k))
    && (b < 10 ==> !LocksAt(locked, initial, up, b))
    && (t.count != 0 ==> a == i)
    && (a == b ==> t.count != 0 || a == 10)
    && r.count == t.count + (b - a)
    && exists total: int :: Totals(initial, up, t, r, a, b, total)
  }

  predicate LocksAt(locked: nat -> bool, initial: nat, up: bool, k: nat) {
    Locks(locked, Probe(initial, up, k))
  }

  ghost predicate Totals(initial: nat, up: bool, t: Tally, r: Tally, a: nat, b: nat, total: int) {
    2 * total == TwiceSum(initial, up, a, b) && r.sum == Wrap16(t.sum + total)
  }

  // One more value that locks in front.
  lemma CountsMore(locked: nat -> bool, initial: nat, up: bool, i: nat, t: Tally, r: Tally, a: nat, b: nat)
    requires i < 10 && LocksAt(locked, initial, up, i)
    requires Counts(locked, initial, up, i + 1, t.Add(Wrap16(Probe(initial, up, i))), r, a, b)
    ensures Counts(locked, initial, up, i, t, r, i, b)
  {
    hide TwiceSum, Probe, LocksAt, Wrap16;
    var probe := Probe(initial, up, i);
    var total :| Totals(initial, up, t.Add(Wrap16(probe)), r, a, b, total);
    TwiceSumStep(initial, up, i, b);
    WrapSum(t.sum, probe, total);
    assert Totals(initial, up, t, r, i, b, probe + total);
  }

  // Nothing more.
  lemma CountsNone(locked: nat -> bool, initial: nat, up: bool, i: nat, t: Tally)
    requires i <= 10 && t.sum < 0x1_0000 && (i < 10 ==> t.count != 0 && !LocksAt(locked, initial, up, i))
    ensures Counts(locked, initial, up, i, t, t, i, i)
  {
    hide TwiceSum, LocksAt;
    TwiceSumStep(initial, up, i, i);
    assert Totals(initial, up, t, t, i, i, 0);
  }

  lemma {:induction false} PassCounts(locked: nat -> bool, initial: nat, up: bool, i: nat, t: Tally)
    returns (a: nat, b: nat)
    requires i <= 10 && t.sum < 0x1_0000
    ensures Counts(locked, initial, up, i, t, Pass(locked, initial, up, i, t), a, b)
    decreases 10 - i
  {
    hide Totals, Probe, Locks;
    a, b := i, i;
    if i < 10 {
      WrapLocks(locked, Probe(initial, up, i));
    }
    if i < 10 && LocksAt(locked, initial, up, i) {
      var added := t.Add(Wrap16(Probe(initial, up, i)));
      a, b := PassCounts(locked, initial, up, i + 1, added);
      CountsMore(locked, initial, up, i, t, Pass(locked, initial, up, i, t), a, b);
      a := i;
    } else if i == 10 || t.count != 0 {
      CountsNone(locked, initial, up, i, t);
    } else {
      a, b := PassCounts(locked, initial, up, i + 1, t);
    }
  }

  lemma WrapSum(sum: int, cap: int, total: int)
    ensures Wrap16(Wrap16(sum + Wrap16(cap)) + total) == Wrap16(sum + (cap + total))
  {
  }

  // What both passes find: the probes from `d0` to `d1` on the way down, from `u0` to `u1` on the way up.
  datatype Found = Found(d0: nat, d1: nat, u0: nat, u1: nat, total: int) {
    function Count(): (n: int) {
      (d1 - d0) + (u1 - u0)
    }
  }

  // Of the values from the initial one down, those probed by `a` to `b` lock, and not their neighbours.
  ghost predicate DownRun(locked: nat -> bool, initial: nat, a: nat, b: nat) {
    && (forall c :: initial - a < c <= initial ==> !Locks(locked, c))
    && (forall c :: initial - b < c <= initial - a ==> Locks(locked, c))
    && (b < 10 ==> !Locks(locked, initial - b))
  }

  ghost predicate UpRun(locked: nat -> bool, initial: nat, a: nat, b: nat) {
    && (forall c :: initial < c <= initial + a ==> !Locks(locked, c))
    && (forall c :: initial + a < c <= initial + b ==> Locks(locked, c))
    && (b < 10 ==> !Locks(locked, initial + 1 + b))
  }

  ghost predicate Finds(locked: nat -> bool, initial: nat, f: Found) {
    && f.d0 <= f.d1 <= 10 && f.u0 <= f.u1 <= 10
    && DownRun(locked, initial, f.d0, f.d1)
    && UpRun(locked, initial, f.u0, f.u1)
    && (if f.d0 == f.d1 then f.d0 == 10 && (f.u0 == f.u1 ==> f.u0 == 10) else f.u0 == 0)
    && 2 * f.total == TwiceSum(initial, false, f.d0, f.d1) + TwiceSum(initial, true, f.u0, f.u1)
    && Search(locked, initial) == Tally(f.Count(), Wrap16(f.total))
  }

  lemma SearchFinds(locked: nat -> bool, initial: nat) returns (f: Found)
    ensures Finds(locked, initial, f)
  {
    hide Pass, Locks, TwiceSum;
    var none := Tally(0, 0);
    var down := Pass(locked, initial, false, 0, none);
    var d0, d1 := PassCounts(locked, initial, false, 0, none);
    var below: int :| Totals(initial, false, none, down, d0, d1, below);
    var both := Pass(locked, initial, true, 0, down);
    var u0, u1 := PassCounts(locked, initial, true, 0, down);
    var above: int :| Totals(initial, true, down, both, u0, u1, above);
    f := Found(d0, d1, u0, u1, below + above);
    WrapSum(0, below, above);
    CountsDown(locked, initial, none, down, d0, d1);
    CountsUp(locked, initial, down, both, u0, u1);
  }

  lemma CountsDown(locked: nat -> bool, initial: nat, t: Tally, r: Tally, a: nat, b: nat)
    requires Counts(locked, initial, false, 0, t, r, a, b)
    ensures DownRun(locked, initial, a, b)
  {
    hide Locks, Totals;
    forall c | initial - b < c <= initial
      ensures Locks(locked, c) <==> c <= initial - a
    {
      assert LocksAt(locked, initial, false, initial - c) <==> Locks(locked, c);
    }
  }

  lemma CountsUp(locked: nat -> bool, initial: nat, t: Tally, r: Tally, a: nat, b: nat)
    requires Counts(locked, initial, true, 0, t, r, a, b)
    ensures UpRun(locked, initial, a, b)
  {
    hide Locks, Totals;
    forall c | initial < c <= initial + b
      ensures Locks(locked, c) <==> initial + a < c
    {
      assert LocksAt(locked, initial, true, c - initial - 1) <==> Locks(locked, c);
    }
  }

  // The values that were counted are those from `low` to `high`, and no others.
  ghost predicate OneRun(locked: nat -> bool, initial: nat, f: Found, low: int, high: int) {
    && initial - 9 <= low <= high <= initial + 10
    && f.Count() == high - low + 1
    && 2 * f.total == Twice(high) - Twice(low - 1)
    && (forall c :: low <= c <= high ==> Locks(locked, c))
  }

  // Something was found, not in two pieces with the initial value between them.
  lemma FoundOneRun(locked: nat -> bool, initial: nat, f: Found) returns (low: int, high: int)
    requires Finds(locked, initial, f) && 0 < f.Count() && (f.d0 == 0 || f.d0 == f.d1 || f.u0 == f.u1)
    ensures OneRun(locked, initial, f, low, high)
    ensures low == if f.d0 == f.d1 then initial + 1 + f.u0 else initial - f.d1 + 1
    ensures high == if f.u0 == f.u1 then initial - f.d0 else initial + f.u1
  {
    hide Locks, Twice, Search;
    if f.d0 == f.d1 {
      low, high := initial + 1 + f.u0, initial + f.u1;
    } else if f.u0 == f.u1 {
      low, high := initial - f.d1 + 1, initial - f.d0;
    } else {
      low, high := initial - f.d1 + 1, initial + f.u1;
    }
  }

  lemma Factor(low: int, high: int)
    ensures Twice(high) - Twice(low - 1) == (low + high) * (high - low + 1)
  {
  }

  // The average of a run is its middle, and the sum does not wrap around.
  lemma Mean(low: int, high: int, total: int)
    requires low <= high <= low + 19 && 0 <= low + high && high < 1000
    requires 2 * total == Twice(high) - Twice(low - 1)
    ensures Wrap16(total) == total && total / (high - low + 1) == (low + high) / 2
  {
    hide Twice, Wrap16;
    Factor(low, high);
    var n := high - low + 1;
    var q, m := (low + high) / 2, n / 2;
    if n % 2 == 1 {
      assert low + high == 2 * q;
      MeanOfOdd(n, q, total);
    } else {
      assert low + high == 2 * q + 1 && n == 2 * m;
      MeanOfEven(m, q, total);
    }
    SmallTotal(n, q, total);
  }

  lemma SmallTotal(n: nat, q: nat, total: int)
    requires n <= 20 && q < 1000 && n * q <= total <= n * q + n
    ensures Wrap16(total) == total
  {
    MulLess(n, q, 1000);
  }

  lemma MeanOfOdd(n: nat, q: nat, total: int)
    requires 0 < n && 2 * total == (2 * q) * n
    ensures total == n * q && total / n == q
  {
    assert (2 * q) * n == 2 * (n * q);
    DivMod(n, q, 0);
  }

  lemma MeanOfEven(m: nat, q: nat, total: int)
    requires 0 < m && 2 * total == (2 * q + 1) * (2 * m)
    ensures total == (2 * m) * q + m && total / (2 * m) == q
  {
    assert (2 * q + 1) * (2 * m) == 2 * ((2 * m) * q + m);
    DivMod(2 * m, q, m);
  }

  lemma RunIsCentered(locked: nat -> bool, initial: nat, f: Found, low: int, high: int)
    requires initial < 512 && Finds(locked, initial, f) && OneRun(locked, initial, f, low, high) && 0 <= low + high
    ensures Chosen(locked, initial) == (low + high) / 2 && Locks(locked, Chosen(locked, initial))
  {
    hide Twice, Search, Locks;
    Mean(low, high, f.total);
  }

  // `cap` is the middle of the values within reach that lock, or the initial value if there are none.
  ghost predicate Centered(locked: nat -> bool, initial: nat, low: int, high: int, cap: nat) {
    && (low <= high ==> initial - 9 <= low && high <= initial + 10)
    && (forall c :: initial - 9 <= c <= initial + 10 ==> (Locks(locked, c) <==> low <= c <= high))
    && if low <= high then cap == (low + high) / 2 && Locks(locked, cap) else cap == initial
  }

  // Between two values that lock, neither of them beyond an end of the register, all do.
  lemma Between(locked: nat -> bool, a: int, b: int, c: int)
    requires Interval(locked) && 0 <= a <= b <= c < 512 && Locks(locked, a) && Locks(locked, c)
    ensures Locks(locked, b)
  {
    assert Register(a) == a && Register(b) == b && Register(c) == c;
  }

  // Away from the ends of the register nothing but one run locks.
  lemma RunIsAll(locked: nat -> bool, initial: nat, f: Found, low: int, high: int)
    requires 9 <= initial <= 501 && Interval(locked) && Finds(locked, initial, f)
    requires 0 < f.Count() && (f.d0 == 0 || f.d0 == f.d1 || f.u0 == f.u1)
    requires low == if f.d0 == f.d1 then initial + 1 + f.u0 else initial - f.d1 + 1
    requires high == if f.u0 == f.u1 then initial - f.d0 else initial + f.u1
    requires Locks(locked, low) && Locks(locked, high)
    ensures forall c :: initial - 9 <= c <= initial + 10 && Locks(locked, c) ==> low <= c <= high
  {
    hide Locks, Search, TwiceSum, Interval;
    forall c | initial - 9 <= c <= initial + 10 && Locks(locked, c)
      ensures low <= c <= high
    {
      if c < low {
        if f.d0 != f.d1 {
          Between(locked, c, initial - f.d1, low);
        }
      } else if high < c {
        if f.u0 == f.u1 {
          if initial < c {
            Between(locked, high, initial + 1, c);
          }
        } else {
          Between(locked, high, initial + 1 + f.u1, c);
        }
      }
    }
  }

  // Away from the ends the initial value does not lie between two pieces.
  lemma NotApart(locked: nat -> bool, initial: nat, f: Found)
    requires initial <= 510 && Interval(locked) && Finds(locked, initial, f) && (f.d0 <= initial || f.d0 == f.d1)
    ensures f.d0 == 0 || f.d0 == f.d1 || f.u0 == f.u1
  {
    hide Locks, Search, TwiceSum, Interval;
    if f.d0 != 0 && f.d0 != f.d1 && f.u0 != f.u1 {
      Between(locked, initial - f.d0, initial, initial + 1);
    }
  }

  /** With a margin of nine or ten values to the ends of the register, the search programs the middle. */
  lemma MiddleIsChosen(locked: nat -> bool, initial: nat)
    requires 9 <= initial <= 501 && Interval(locked)
    ensures exists low, high :: Centered(locked, initial, low, high, Chosen(locked, initial))
  {
    hide Locks, Search, TwiceSum, Interval, Twice;
    var f := SearchFinds(locked, initial);
    if f.Count() == 0 {
      assert Centered(locked, initial, 1, 0, Chosen(locked, initial));
    } else {
      NotApart(locked, initial, f);
      var low, high := FoundOneRun(locked, initial, f);
      RunIsAll(locked, initial, f, low, high);
      RunIsCentered(locked, initial, f, low, high);
      assert Centered(locked, initial, low, high, Chosen(locked, initial));
    }
  }

  // A register value that locks is programmed if any of those probed locks, or else the initial one.
  ghost predicate EndsLocked(locked: nat -> bool, initial: nat) {
    if exists c :: initial - 9 <= c <= initial + 10 && Locks(locked, c) then Locks(locked, Chosen(locked, initial))
    else Chosen(locked, initial) == initial
  }

  lemma NothingFound(locked: nat -> bool, initial: nat, f: Found)
    requires Finds(locked, initial, f)
    ensures f.Count() == 0 <==> forall c :: initial - 9 <= c <= initial + 10 ==> !Locks(locked, c)
    ensures f.Count() == 0 ==> Chosen(locked, initial) == initial
  {
    hide Locks, Search, TwiceSum;
    if f.d0 < f.d1 {
      assert Locks(locked, initial - f.d0);
    }
    if f.u0 < f.u1 {
      assert Locks(locked, initial + 1 + f.u0);
    }
  }

  // Two values below zero are averaged correctly, since their number divides the 16-bit range.
  lemma BelowZero(locked: nat -> bool, initial: nat, f: Found, low: int, high: int)
    requires Finds(locked, initial, f) && OneRun(locked, initial, f, low, high) && -2 <= low && high < 0
    ensures Locks(locked, Chosen(locked, initial))
  {
    hide Locks, Search, TwiceSum;
    WrapLocks(locked, low);
    assert f.total == if low == high then low else -3;
    if low < high {
      assert Chosen(locked, initial) == 32766;
      assert Register(32766) == 510 == Register(low);
      SameRegister(locked, 32766, low);
    } else {
      assert Chosen(locked, initial) == Wrap16(low);
    }
  }

  lemma SameRegister(locked: nat -> bool, a: int, b: int)
    requires Register(a) == Register(b)
    ensures Locks(locked, a) <==> Locks(locked, b)
  {
  }

  // A run over both ends of the register contains everything.
  lemma OverTheEnd(locked: nat -> bool, c: int)
    requires Interval(locked) && Locks(locked, -1) && Locks(locked, 0)
    ensures Locks(locked, c)
  {
    assert Register(-1) == 511 && Register(0) == 0;
  }

  lemma OneRunEndsLocked(locked: nat -> bool, initial: nat, f: Found)
    requires 7 <= initial <= 510 && Interval(locked) && Finds(locked, initial, f) && 0 < f.Count()
    requires f.d0 == 0 || f.d0 == f.d1 || f.u0 == f.u1
    ensures Locks(locked, Chosen(locked, initial))
  {
    hide Locks, Search, TwiceSum, Twice, Interval;
    var low, high := FoundOneRun(locked, initial, f);
    if 0 <= low + high {
      RunIsCentered(locked, initial, f, low, high);
    } else if high < 0 {
      BelowZero(locked, initial, f, low, high);
    } else {
      OverTheEnd(locked, initial);
      assert false;
    }
  }

  // Pieces on both sides of an initial value near zero: few below, and all ten above.
  lemma ApartEndsLocked(locked: nat -> bool, initial: nat, f: Found)
    requires 7 <= initial <= 8 && Interval(locked) && Finds(locked, initial, f)
    requires initial < f.d0 < f.d1 && f.u0 < f.u1
    ensures Locks(locked, Chosen(locked, initial))
  {
    hide Locks, Finds, Interval, Chosen;
    FoundEnds(locked, initial, f);
    var below := initial - f.d0;
    SameRegister(locked, below, below + 512);
    AllUpTo(locked, initial + 1, below + 512);
    UpIs(locked, initial, f, initial + 10);
    ApartTotal(initial, f);
    ChosenIs(locked, initial, f);
  }

  lemma FoundEnds(locked: nat -> bool, initial: nat, f: Found)
    requires Finds(locked, initial, f) && f.d0 < f.d1 && f.u0 < f.u1
    ensures Locks(locked, initial - f.d0) && Locks(locked, initial + 1) && f.u0 == 0 && f.d1 <= 10
    ensures 2 * f.total == TwiceSum(initial, false, f.d0, f.d1) + TwiceSum(initial, true, f.u0, f.u1)
  {
    hide Locks, Search, TwiceSum;
  }

  lemma ChosenIs(locked: nat -> bool, initial: nat, f: Found)
    requires Finds(locked, initial, f) && 0 < f.Count() && 0 <= f.total < 0x1_0000
    ensures Chosen(locked, initial) == f.total / f.Count()
  {
    hide Search, TwiceSum, DownRun, UpRun;
  }

  lemma AllUpTo(locked: nat -> bool, low: int, high: int)
    requires Interval(locked) && 0 <= low <= high < 512 && Locks(locked, low) && Locks(locked, high)
    ensures forall c :: low <= c <= high ==> Locks(locked, c)
  {
    forall c | low <= c <= high
      ensures Locks(locked, c)
    {
      Between(locked, low, c, high);
    }
  }

  lemma ApartTotal(initial: nat, f: Found)
    requires 7 <= initial <= 8 && initial < f.d0 < f.d1 <= 10 && f.u0 == 0 && f.u1 == 10
    requires 2 * f.total == TwiceSum(initial, false, f.d0, f.d1) + TwiceSum(initial, true, 0, 10)
    ensures 0 < f.total < 0x1_0000 && initial < f.total / f.Count() <= initial + 10
  {
    assert f.total == 10 * initial + 55 - if f.d1 - f.d0 == 2 then 3 else f.d0 - initial;
  }

  lemma DownIs(locked: nat -> bool, initial: nat, f: Found, low: int, high: int)
    requires Finds(locked, initial, f) && initial - 9 <= low <= high <= initial
    requires (forall c :: high < c <= initial ==> !Locks(locked, c)) && forall c :: low <= c <= high ==> Locks(locked, c)
    requires low == initial - 9 || !Locks(locked, low - 1)
    ensures f.d0 == initial - high && f.d1 == initial - low + 1
  {
    hide Locks, Search, TwiceSum;
    assert Locks(locked, high) && Locks(locked, low);
    assert f.d0 < f.d1 ==> Locks(locked, initial - f.d0);
    assert f.d0 < f.d1 ==> Locks(locked, initial - f.d1 + 1);
  }

  lemma UpIs(locked: nat -> bool, initial: nat, f: Found, high: int)
    requires Finds(locked, initial, f) && f.d0 < f.d1 && initial <= high <= initial + 10
    requires (forall c :: initial < c <= high ==> Locks(locked, c)) && (high == initial + 10 || !Locks(locked, high + 1))
    ensures f.u0 == 0 && f.u1 == high - initial
  {
    hide Locks, Search, TwiceSum;
    assert f.u1 < 10 ==> !Locks(locked, initial + 1 + f.u1);
  }

  // The three uppermost values of the register.
  predicate Upper(c: nat) {
    509 <= c
  }

  lemma UpperLocks(c: int)
    requires -9 <= c <= 16
    ensures Locks(Upper, c) <==> -3 <= c <= -1
  {
    assert Register(c) == if c < 0 then c + 512 else c;
  }

  // Seen from near the lower end, they sum up to 65530.
  lemma FailsBelow(initial: nat)
    requires initial < 7
    ensures Interval(Upper) && !EndsLocked(Upper, initial) && Chosen(Upper, initial) == 21843
  {
    hide Search, Locks, TwiceSum;
    var f := SearchFinds(Upper, initial);
    forall c | -9 <= c <= 16
      ensures Locks(Upper, c) <==> -3 <= c <= -1
    {
      UpperLocks(c);
    }
    DownIs(Upper, initial, f, -3, -1);
    UpIs(Upper, initial, f, initial);
    UpperTotal(initial);
    NotUpper();
    assert Locks(Upper, -1);
  }

  lemma UpperTotal(initial: nat)
    ensures TwiceSum(initial, false, initial + 1, initial + 4) == -12 && TwiceSum(initial, true, 0, 0) == 0
  {
  }

  lemma NotUpper()
    ensures !Locks(Upper, 21843)
  {
    assert Register(21843) == 339;
  }

  // All values of the register but the uppermost.
  predicate AllButOne(c: nat) {
    c != 511
  }

  lemma AllButOneLocks(c: int)
    requires 502 <= c <= 521
    ensures Locks(AllButOne, c) <==> c != 511
  {
    assert Register(c) == if c < 512 then c else c - 512;
  }

  // Seen from the uppermost, they are counted in two pieces around it.
  lemma FailsAbove()
    ensures Interval(AllButOne) && !EndsLocked(AllButOne, 511) && Chosen(AllButOne, 511) == 511
  {
    hide Search, Locks;
    var f := SearchFinds(AllButOne, 511);
    forall c | 502 <= c <= 521
      ensures Locks(AllButOne, c) <==> c != 511
    {
      AllButOneLocks(c);
    }
    DownIs(AllButOne, 511, f, 502, 510);
    UpIs(AllButOne, 511, f, 521);
    assert f.total == 9719;
    assert Locks(AllButOne, 510);
  }

  /** Whatever interval locks, the search ends with a value that locks, just for initial values from 7 to 510. */
  lemma EndsLockedIff(initial: nat)
    requires initial < 512
    ensures (forall locked :: Interval(locked) ==> EndsLocked(locked, initial)) <==> 7 <= initial <= 510
  {
    hide Interval, EndsLocked;
    if 7 <= initial <= 510 {
      forall locked | Interval(locked)
        ensures EndsLocked(locked, initial)
      {
        SearchEndsLocked(locked, initial);
      }
    } else if initial < 7 {
      FailsBelow(initial);
    } else {
      FailsAbove();
    }
  }

  lemma SearchEndsLocked(locked: nat -> bool, initial: nat)
    requires 7 <= initial <= 510 && Interval(locked)
    ensures EndsLocked(locked, initial)
  {
    hide Locks, Search, TwiceSum, Interval;
    var f := SearchFinds(locked, initial);
    NothingFound(locked, initial, f);
    if 0 < f.Count() {
      if f.d0 == 0 || f.d0 == f.d1 || f.u0 == f.u1 {
        OneRunEndsLocked(locked, initial, f);
      } else if f.d0 <= initial {
        NotApart(locked, initial, f);
      } else {
        ApartEndsLocked(locked, initial, f);
      }
    }
  }
}
