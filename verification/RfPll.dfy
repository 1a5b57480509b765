/** Programming the RF PLL: the division digits of a frequency. */
module RfPll {
  import opened Bits
  import opened Machine

  // The reference clock in MHz.
  function Clock(chip: Chip, selector: Byte): (mhz: nat)
    ensures mhz in {26, 32, 40, 48}
  {
    match selector
    case 1 => 26
    case 2 => 32
    case _ => if selector == 3 && chip == C3 then 48 else 40
  }

  function Denominator(chip: Chip, selector: Byte): (d: nat)
    ensures d in {78000, 96000, 120000, 144000}
  {
    Clock(chip, selector) * 3000
  }

  // Four times the frequency in kHz, less the integer part that is always there.
  function Numerator(frequency: nat, offset: int, d: nat): (n: int) {
    4 * (1000 * frequency + offset) - 32 * d
  }

  // Three bytes as a number, the highest first.
  function Digits(bytes: seq<Byte>): (w: nat)
    requires |bytes| == 3
  {
    256 * Le16(bytes[1], bytes[0]) + bytes[2]
  }

  // The expansion of n / d in base 256.
  function Rest(n: nat, d: nat, i: nat): (r: nat)
    requires 0 < d
  {
    if i == 0 then n else 256 * (Rest(n, d, i - 1) % d)
  }

  function Digit(n: nat, d: nat, i: nat): (q: nat)
    requires 0 < d
  {
    Rest(n, d, i) / d
  }

  // Three digits are the quotient to 16 binary places.
  lemma DigitsExact(n: nat, d: nat)
    requires d in {78000, 96000, 120000, 144000} && n < 256 * d
    ensures Digit(n, d, 0) < 256 && Digit(n, d, 1) < 256 && Digit(n, d, 2) < 256
    ensures 0x1_0000 * Digit(n, d, 0) + 256 * Digit(n, d, 1) + Digit(n, d, 2) == 0x1_0000 * n / d
  {
    var q0, r0 := n / d, n % d;
    var q1, r1 := 256 * r0 / d, 256 * r0 % d;
    var q2, r2 := 256 * r1 / d, 256 * r1 % d;
    assert Rest(n, d, 1) == 256 * (Rest(n, d, 0) % d) == 256 * r0;
    assert Rest(n, d, 2) == 256 * (Rest(n, d, 1) % d) == 256 * r1;
    assert 0x1_0000 * n == d * (0x1_0000 * q0 + 256 * q1 + q2) + r2;
    DivMod(d, 0x1_0000 * q0 + 256 * q1 + q2, r2);
  }

  // One turn of the loop, in 32 bits.
  function Quotient(numerator: nat, d: nat): (q: Byte)
    requires 0 < d
  {
    TruncatedQuotient(Signed32(numerator), d) % 256
  }

  function Remaining(numerator: nat, quotient: nat, d: nat): (n: nat)
    ensures n < U32
  {
    (numerator - quotient * d) * 256 % U32
  }

  lemma TurnStep(rest: nat, d: nat)
    requires 0 < d <= 144000 && rest < 256 * d
    ensures Quotient(rest, d) == rest / d && Remaining(rest, rest / d, d) == 256 * (rest % d)
  {
    hide Quotient, Remaining;
    assert rest == d * (rest / d) + rest % d;
    TurnOf(d, rest / d, rest % d);
  }

  lemma TurnOf(d: nat, q: nat, r: nat)
    requires r < d <= 144000 && d * q + r < 256 * d
    ensures Quotient(d * q + r, d) == q && Remaining(d * q + r, q, d) == 256 * r
  {
    hide Remaining, Signed32, TruncatedQuotient;
    MulLess(d, 255, q);
    DivMod(d, q, r);
    SmallQuotient(d * q + r, d);
    SmallRemaining(d, q, r);
  }

  lemma SmallRemaining(d: nat, q: nat, r: nat)
    requires r < 144000
    ensures Remaining(d * q + r, q, d) == 256 * r
  {
    assert d * q + r - q * d == r;
  }

  lemma SmallQuotient(x: nat, d: nat)
    requires 0 < d && x < 0x8000_0000
    ensures TruncatedQuotient(Signed32(x), d) == x / d
  {
    assert Signed32(x) == x;
  }

  lemma Turn(n: nat, d: nat, i: nat)
    requires d in {78000, 96000, 120000, 144000} && n < 256 * d
    ensures Rest(n, d, i) < 256 * d
    ensures var q := Quotient(Rest(n, d, i), d);
      q == Digit(n, d, i) && Remaining(Rest(n, d, i), q, d) == Rest(n, d, i + 1)
  {
    hide Quotient, Remaining;
    TurnStep(Rest(n, d, i), d);
  }

  /** Compute the three digits, in 32-bit arithmetic. */
  method Frequency(chip: Chip, frequency: nat, selector: Byte, offset: int) returns (buffer: array<Byte>)
    ensures buffer.Length == 3 && fresh(buffer)
    ensures var d := Denominator(chip, selector);
      var n := Numerator(frequency, OffsetArgument(chip, offset), d);
      Digits(buffer[..]) == 0x1_0000 * n / d <==> 0 <= n < 256 * d
  {
    hide Quotient, Remaining, Rest, Digit, OffsetArgument;
    buffer := new Byte[3];
    var d := Denominator(chip, selector);
    ghost var n := Numerator(frequency, OffsetArgument(chip, offset), d);
    var numerator := ((frequency * 1000 + OffsetArgument(chip, offset)) * 4 - d * 32) % U32;
    if 0 <= n < 256 * d {
      FirstRest(n, d);
    }
    for i := 0 to 3
      invariant 0 <= numerator < U32
      invariant 0 <= n < 256 * d ==>
        numerator == Rest(n, d, i) && forall j :: 0 <= j < i ==> buffer[j] == Digit(n, d, j)
    {
      if 0 <= n < 256 * d {
        Turn(n, d, i);
      }
      var quotient := Quotient(numerator, d);
      buffer[i] := quotient;
      numerator := Remaining(numerator, quotient, d);
    }
    if 0 <= n < 256 * d {
      DigitsExact(n, d);
    } else {
      OutOfRange(n, d);
    }
    assert buffer[..] == [buffer[0], buffer[1], buffer[2]];
  }

  lemma FirstRest(n: nat, d: nat)
    requires d in {78000, 96000, 120000, 144000} && n < 256 * d
    ensures n % U32 == n && Rest(n, d, 0) == n
  {
  }

  // Three bytes can only hold quotients from that range.
  lemma OutOfRange(n: int, d: nat)
    requires d in {78000, 96000, 120000, 144000} && !(0 <= n < 256 * d)
    ensures !(0 <= 0x1_0000 * n / d < 0x100_0000)
  {
  }

  // The quotient for a frequency in MHz, to 16 binary places.
  function ExactCode(chip: Chip, selector: Byte, frequency: nat): (code: int) {
    var d := Denominator(chip, selector);
    0x1_0000 * Numerator(frequency, 0, d) / d
  }

  /** Within the band, the digits are exact for every clock. */
  method StepCode(chip: Chip, selector: Byte, frequency: nat) returns (code: nat)
    requires 2400 <= frequency <= 2484
    ensures code == ExactCode(chip, selector, frequency)
  {
    var buffer := Frequency(chip, frequency, selector, 0);
    code := Digits(buffer[..]);
  }

  /**
   The frequency that the digits make of the reference clock falls short of the requested one, in kHz, by
   less than a 262144th of the denominator.
   */
  lemma FrequencyError(chip: Chip, selector: Byte, frequency: nat, offset: int, digits: nat)
    requires var d := Denominator(chip, selector); digits == 0x1_0000 * Numerator(frequency, offset, d) / d
    ensures var mhz := if selector == 1 then 26.0 else if selector == 2 then 32.0
                       else if selector == 3 && chip == C3 then 48.0 else 40.0;
      var requested := (1000 * frequency + offset) as real;
      var synthesized := mhz * 750.0 * (32.0 + digits as real / 65536.0);
      0.0 <= requested - synthesized < mhz * 3000.0 / 262144.0
  {
    var d := Denominator(chip, selector);
    var n := Numerator(frequency, offset, d);
    assert 0 <= 0x1_0000 * n - d * digits < d;
    assert (4 * (1000 * frequency + offset)) as real == (n + 32 * d) as real;
  }
}
