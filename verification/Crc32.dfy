/** The checksum of the capture protocol: CRC-32 as in section 3.2.9 of IEEE 802.3, table-driven. */
module Crc32 {
  import opened Bits

  const POLYNOMIAL: nat := 0xedb88320
  const ONES: nat := 0xffffffff

  // The generating polynomial of section 3.2.9 of IEEE 802.3 has these exponents below 32. The register
  // holds the highest coefficient in its lowest bit.
  lemma PolynomialIsStandard()
    ensures POLYNOMIAL ==
      Pow2(31 - 26) + Pow2(31 - 23) + Pow2(31 - 22) + Pow2(31 - 16) + Pow2(31 - 12) + Pow2(31 - 11) + Pow2(31 - 10) +
      Pow2(31 - 8) + Pow2(31 - 7) + Pow2(31 - 5) + Pow2(31 - 4) + Pow2(31 - 2) + Pow2(31 - 1) + Pow2(31)
  {
    assert Pow2(5) == 32 && Pow2(8) == 256 && Pow2(9) == 512 && Pow2(12) == 4096 && Pow2(15) == 8 * Pow2(12);
    assert Pow2(19) == 16 * Pow2(15) && Pow2(20) == 2 * Pow2(19) && Pow2(21) == 2 * Pow2(20);
    assert Pow2(23) == 4 * Pow2(21) && Pow2(24) == 2 * Pow2(23) && Pow2(26) == 4 * Pow2(24);
    assert Pow2(27) == 2 * Pow2(26) && Pow2(29) == 4 * Pow2(27) && Pow2(30) == 2 * Pow2(29) && Pow2(31) == 2 * Pow2(30);
  }

  // The bitwise definition: a message bit enters at the low end of the register, which then is
  // divided by the polynomial.
  function FeedBit(crc: nat, bit: nat): (r: nat) {
    if (crc + bit) % 2 == 1 then Xor(crc / 2, POLYNOMIAL) else crc / 2
  }

  // The lowest `n` bits of a byte enter, lowest first.
  function FeedBits(crc: nat, byte: nat, n: nat): (r: nat)
    decreases n
  {
    if n == 0 then crc else FeedBits(FeedBit(crc, byte % 2), byte / 2, n - 1)
  }

  function Feed(crc: nat, bytes: seq<Byte>): (r: nat)
    decreases bytes
  {
    if bytes == [] then crc else Feed(FeedBits(crc, bytes[0], 8), bytes[1..])
  }

  // The register starts with all ones and is complemented at the end.
  function Crc(bytes: seq<Byte>): (r: nat) {
    Xor(Feed(ONES, bytes), ONES)
  }

  // A zero bit enters.
  function Shift(value: nat): (r: nat) {
    Xor(value / 2, if value % 2 == 1 then POLYNOMIAL else 0)
  }

  function Shifts(value: nat, n: nat): (r: nat)
    decreases n
  {
    if n == 0 then value else Shifts(Shift(value), n - 1)
  }

  lemma ShiftLinear(a: nat, b: nat)
    ensures Shift(Xor(a, b)) == Xor(Shift(a), Shift(b))
  {
    hide Xor;
    var p, q := if a % 2 == 1 then POLYNOMIAL else 0, if b % 2 == 1 then POLYNOMIAL else 0;
    XorHalf(a, b);
    XorSelf(POLYNOMIAL);
    XorComm(0, q);
    XorZero(q);
    XorZero(p);
    assert Shift(Xor(a, b)) == Xor(Xor(a / 2, b / 2), Xor(p, q));
    XorSwap(a / 2, b / 2, p, q);
  }

  lemma XorSwap(a: nat, b: nat, c: nat, d: nat)
    ensures Xor(Xor(a, b), Xor(c, d)) == Xor(Xor(a, c), Xor(b, d))
  {
    XorAssoc(a, b, Xor(c, d));
    XorAssoc(b, c, d);
    XorComm(b, c);
    XorAssoc(c, b, d);
    XorAssoc(a, c, Xor(b, d));
  }

  lemma {:induction false} ShiftsLinear(a: nat, b: nat, n: nat)
    ensures Shifts(Xor(a, b), n) == Xor(Shifts(a, n), Shifts(b, n))
    decreases n
  {
    if n != 0 {
      ShiftLinear(a, b);
      ShiftsLinear(Shift(a), Shift(b), n - 1);
    }
  }

  lemma ShiftOut(value: nat)
    ensures Shift(2 * value) == value
  {
    hide Xor;
    Halve(0, value);
    XorZero(value);
  }

  // Zeros in front of the register just move out.
  lemma {:induction false} ShiftsOut(value: nat, n: nat)
    ensures Shifts(Pow2(n) * value, n) == value
    decreases n
  {
    if n != 0 {
      assert Pow2(n) * value == 2 * (Pow2(n - 1) * value);
      ShiftOut(Pow2(n - 1) * value);
      ShiftsOut(value, n - 1);
    }
  }

  lemma XorBit(a: nat, bit: nat)
    requires bit < 2
    ensures Xor(a, bit) % 2 == (a + bit) % 2 && Xor(a, bit) / 2 == a / 2
  {
    XorHalf(a, bit);
    XorZero(a / 2);
  }

  lemma FeedBitIsShift(crc: nat, bit: nat)
    requires bit < 2
    ensures FeedBit(crc, bit) == Shift(Xor(crc, bit))
  {
    XorBit(crc, bit);
    XorZero(crc / 2);
    FeedIsShiftOf(crc, bit, Xor(crc, bit));
  }

  lemma FeedIsShiftOf(crc: nat, bit: nat, x: nat)
    requires x % 2 == (crc + bit) % 2 && x / 2 == crc / 2 && Xor(crc / 2, 0) == crc / 2
    ensures FeedBit(crc, bit) == Shift(x)
  {
    hide Xor;
  }

  /** Feeding bits one at a time is combining them with the register first and feeding zeros. */
  lemma {:induction false} FeedBitsIsShifts(crc: nat, byte: nat, n: nat)
    requires byte < Pow2(n)
    ensures FeedBits(crc, byte, n) == Shifts(Xor(crc, byte), n)
    decreases n
  {
    hide Xor, Shift, FeedBit;
    if n == 0 {
      XorZero(crc);
    } else {
      var bit, rest := byte % 2, byte / 2;
      var x := Xor(crc, bit);
      FeedBitIsShift(crc, bit);
      FeedBitsIsShifts(Shift(x), rest, n - 1);
      ShiftOut(rest);
      ShiftLinear(x, 2 * rest);
      XorAssoc(crc, bit, 2 * rest);
      XorComm(bit, 2 * rest);
      assert Pow2(1) == 2;
      XorJoin(rest, bit, 1);
    }
  }

  /** The step of the table-driven form. */
  lemma TableStep(crc: nat, byte: Byte)
    ensures FeedBits(crc, byte, 8) == Xor(crc / 256, Shifts(Xor(crc % 256, byte), 8))
  {
    hide Xor, Shifts, FeedBits;
    Pow2Values();
    var high, low := crc / 256, crc % 256;
    FeedBitsIsShifts(crc, byte, 8);
    XorJoin(high, low, 8);
    XorAssoc(256 * high, low, byte);
    ShiftsLinear(256 * high, Xor(low, byte), 8);
    ShiftsOut(high, 8);
  }

  // The expression of the table generator.
  lemma MaskedShift(value: nat)
    ensures Xor(value / 2, And(POLYNOMIAL, if value % 2 == 1 then ONES else 0)) == Shift(value)
  {
    Pow2Values();
    AndOnes(POLYNOMIAL, 32);
  }

  method CrcTable() returns (table: array<nat>)
    ensures table.Length == 256 && fresh(table)
    ensures forall i :: 0 <= i < 256 ==> table[i] == Shifts(i, 8)
  {
    hide Xor, And, Shift;
    table := new nat[256];
    var i := 0;
    while i < 256
      invariant 0 <= i <= 256
      invariant forall j :: 0 <= j < i ==> table[j] == Shifts(j, 8)
    {
      var value, bit := i, 0;
      while bit < 8
        invariant 0 <= bit <= 8 && Shifts(value, 8 - bit) == Shifts(i, 8)
        invariant forall j :: 0 <= j < i ==> table[j] == Shifts(j, 8)
      {
        MaskedShift(value);
        value := Xor(value / 2, And(POLYNOMIAL, if value % 2 == 1 then ONES else 0));
        bit := bit + 1;
      }
      table[i] := value;
      i := i + 1;
    }
  }

  ghost predicate IsTable(table: seq<nat>) {
    |table| == 256 && forall i :: 0 <= i < 256 ==> table[i] == Shifts(i, 8)
  }

  function Index(crc: nat, byte: Byte): (i: nat)
    ensures i < 256
  {
    Pow2Values();
    XorBound(crc % 256, byte, 8);
    Xor(crc % 256, byte)
  }

  function FoldTable(table: seq<nat>, crc: nat, bytes: seq<Byte>): (r: nat)
    requires |table| == 256
    decreases bytes
  {
    if bytes == [] then crc else FoldTable(table, Xor(crc / 256, table[Index(crc, bytes[0])]), bytes[1..])
  }

  function TableCrc(table: seq<nat>, bytes: seq<Byte>): (r: nat)
    requires |table| == 256
  {
    Xor(FoldTable(table, ONES, bytes), ONES)
  }

  lemma {:induction false} FoldTableIsFeed(table: seq<nat>, crc: nat, bytes: seq<Byte>)
    requires IsTable(table)
    ensures FoldTable(table, crc, bytes) == Feed(crc, bytes)
    decreases bytes
  {
    if bytes != [] {
      TableStep(crc, bytes[0]);
      FoldTableIsFeed(table, Xor(crc / 256, table[Index(crc, bytes[0])]), bytes[1..]);
    }
  }

  /** With the generated table, the checksum of every message is the bitwise one. */
  lemma TableCrcIsCrc(table: seq<nat>, bytes: seq<Byte>)
    requires IsTable(table)
    ensures TableCrc(table, bytes) == Crc(bytes)
  {
    FoldTableIsFeed(table, ONES, bytes);
  }

  // The register never overflows.
  lemma ShiftBound(value: nat)
    requires value <= ONES
    ensures Shift(value) <= ONES
  {
    hide Xor;
    Pow2Values();
    XorBound(value / 2, POLYNOMIAL, 32);
    XorZero(value / 2);
  }

  // Because the polynomial has a constant term, only zero is shifted to zero.
  lemma ShiftKernel(value: nat)
    requires value <= ONES && Shift(value) == 0
    ensures value == 0
  {
    hide Xor;
    if value % 2 == 1 {
      XorDiffers(value / 2, POLYNOMIAL);
    } else {
      XorZero(value / 2);
    }
  }

  lemma {:induction false} ShiftsKernel(value: nat, n: nat)
    requires value <= ONES && Shifts(value, n) == 0
    ensures value == 0
    decreases n
  {
    if n != 0 {
      ShiftBound(value);
      ShiftsKernel(Shift(value), n - 1);
      ShiftKernel(value);
    }
  }

  lemma ShiftsInjective(a: nat, b: nat, n: nat)
    requires a <= ONES && b <= ONES && Shifts(a, n) == Shifts(b, n)
    ensures a == b
  {
    hide Xor;
    Pow2Values();
    XorBound(a, b, 32);
    ShiftsLinear(a, b, n);
    XorSelf(Shifts(a, n));
    ShiftsKernel(Xor(a, b), n);
    XorDiffers(a, b);
  }

  // Up to four bytes as they lie in the register.
  function Word(bytes: seq<Byte>): (w: nat)
    decreases bytes
  {
    if bytes == [] then 0 else bytes[0] + 256 * Word(bytes[1..])
  }

  lemma {:induction false} WordBound(bytes: seq<Byte>)
    ensures Word(bytes) < Pow2(8 * |bytes|)
    decreases bytes
  {
    if bytes != [] {
      WordBound(bytes[1..]);
      Pow2Add(8 * |bytes[1..]|, 8);
      Pow2Values();
    }
  }

  lemma {:induction false} WordInjective(a: seq<Byte>, b: seq<Byte>)
    requires |a| == |b| && Word(a) == Word(b)
    ensures a == b
    decreases a
  {
    if a != [] {
      assert a[0] == Word(a) % 256 == b[0];
      WordInjective(a[1..], b[1..]);
      assert a == [a[0]] + a[1..] && b == [b[0]] + b[1..];
    }
  }

  lemma {:induction false} ShiftsAdd(value: nat, m: nat, n: nat)
    ensures Shifts(Shifts(value, m), n) == Shifts(value, m + n)
    decreases m
  {
    if m != 0 {
      ShiftsAdd(Shift(value), m - 1, n);
    }
  }

  /** Feeding bytes is combining them all with the register first. */
  lemma {:induction false} FeedIsShifts(crc: nat, bytes: seq<Byte>)
    ensures Feed(crc, bytes) == Shifts(Xor(crc, Word(bytes)), 8 * |bytes|)
    decreases bytes
  {
    hide Xor, Shifts;
    if bytes == [] {
      XorZero(crc);
      ShiftsZero(crc);
    } else {
      var rest := Word(bytes[1..]);
      var x := Xor(crc, bytes[0]);
      Pow2Values();
      FeedBitsIsShifts(crc, bytes[0], 8);
      FeedIsShifts(Shifts(x, 8), bytes[1..]);
      ShiftsOut(rest, 8);
      ShiftsLinear(x, 256 * rest, 8);
      ShiftsAdd(Xor(x, 256 * rest), 8, 8 * |bytes[1..]|);
      XorAssoc(crc, bytes[0], 256 * rest);
      XorComm(bytes[0], 256 * rest);
      XorJoin(rest, bytes[0], 8);
    }
  }

  lemma ShiftsZero(crc: nat)
    ensures Shifts(crc, 0) == crc
  {
  }

  lemma {:induction false} ShiftsBound(value: nat, n: nat)
    requires value <= ONES
    ensures Shifts(value, n) <= ONES
    decreases n
  {
    if n != 0 {
      ShiftBound(value);
      ShiftsBound(Shift(value), n - 1);
    }
  }

  // The step is injective in the register, and keeps it in range.
  lemma FeedByteInjective(a: nat, b: nat, byte: Byte)
    requires a <= ONES && b <= ONES
    ensures FeedBits(a, byte, 8) <= ONES && FeedBits(b, byte, 8) <= ONES
    ensures FeedBits(a, byte, 8) == FeedBits(b, byte, 8) ==> a == b
  {
    hide Xor, Shifts, FeedBits;
    Pow2Values();
    FeedBitsIsShifts(a, byte, 8);
    FeedBitsIsShifts(b, byte, 8);
    XorBound(a, byte, 32);
    XorBound(b, byte, 32);
    ShiftsBound(Xor(a, byte), 8);
    ShiftsBound(Xor(b, byte), 8);
    if FeedBits(a, byte, 8) == FeedBits(b, byte, 8) {
      ShiftsInjective(Xor(a, byte), Xor(b, byte), 8);
      XorComm(a, byte);
      XorComm(b, byte);
      XorCancel(byte, a, b);
    }
  }

  lemma {:induction false} FeedInjective(a: nat, b: nat, bytes: seq<Byte>)
    requires a <= ONES && b <= ONES
    ensures Feed(a, bytes) <= ONES && Feed(b, bytes) <= ONES
    ensures Feed(a, bytes) == Feed(b, bytes) ==> a == b
    decreases bytes
  {
    if bytes != [] {
      FeedByteInjective(a, b, bytes[0]);
      FeedInjective(FeedBits(a, bytes[0], 8), FeedBits(b, bytes[0], 8), bytes[1..]);
    }
  }

  lemma {:induction false} FeedConcat(crc: nat, a: seq<Byte>, b: seq<Byte>)
    ensures Feed(crc, a + b) == Feed(Feed(crc, a), b)
    decreases a
  {
    if a == [] {
      assert a + b == b;
    } else {
      assert (a + b)[0] == a[0] && (a + b)[1..] == a[1..] + b;
      FeedConcat(FeedBits(crc, a[0], 8), a[1..], b);
    }
  }

  // Four bytes fill the register: different ones leave it different.
  lemma WindowInjective(crc: nat, a: seq<Byte>, b: seq<Byte>)
    requires crc <= ONES && |a| == |b| <= 4 && Feed(crc, a) == Feed(crc, b)
    ensures a == b
  {
    hide Xor, Shifts, Feed;
    FeedIsShifts(crc, a);
    FeedIsShifts(crc, b);
    WindowBound(crc, a);
    WindowBound(crc, b);
    ShiftsInjective(Xor(crc, Word(a)), Xor(crc, Word(b)), 8 * |a|);
    XorCancel(crc, Word(a), Word(b));
    WordInjective(a, b);
  }

  lemma WindowBound(crc: nat, a: seq<Byte>)
    requires crc <= ONES && |a| <= 4
    ensures Xor(crc, Word(a)) <= ONES
  {
    hide Xor;
    Pow2Values();
    WordBound(a);
    Pow2Add(8 * |a|, 32 - 8 * |a|);
    assert Pow2(8 * |a|) <= Pow2(8 * |a|) * Pow2(32 - 8 * |a|);
    XorBound(crc, Word(a), 32);
  }

  /** Any change confined to four consecutive bytes, in a message of any length, changes the checksum. */
  lemma BurstDetected(before: seq<Byte>, a: seq<Byte>, b: seq<Byte>, after: seq<Byte>)
    requires |a| == |b| <= 4 && a != b
    ensures Crc(before + a + after) != Crc(before + b + after)
  {
    hide Xor, Feed;
    var crc := Feed(ONES, before);
    FeedInjective(ONES, ONES, before);
    FeedConcat(ONES, before + a, after);
    FeedConcat(ONES, before + b, after);
    FeedConcat(ONES, before, a);
    FeedConcat(ONES, before, b);
    if Crc(before + a + after) == Crc(before + b + after) {
      XorComm(Feed(Feed(crc, a), after), ONES);
      XorComm(Feed(Feed(crc, b), after), ONES);
      XorCancel(ONES, Feed(Feed(crc, a), after), Feed(Feed(crc, b), after));
      FeedInjective(crc, crc, a);
      FeedInjective(crc, crc, b);
      FeedInjective(Feed(crc, a), Feed(crc, b), after);
      WindowInjective(crc, a, b);
    }
  }

  // The four bytes of a checksum, lowest first.
  function Trailer(crc: nat): (bytes: seq<Byte>)
    ensures |bytes| == 4
  {
    [crc % 256, crc / 256 % 256, crc / 256 / 256 % 256, crc / 256 / 256 / 256 % 256]
  }

  lemma TrailerWord(crc: nat)
    requires crc <= ONES
    ensures Word(Trailer(crc)) == crc
  {
    hide Word;
    var q1 := crc / 256;
    var q2 := q1 / 256;
    var q3 := q2 / 256;
    assert q3 < 256;
    WordOf4(crc % 256, q1 % 256, q2 % 256, q3 % 256);
  }

  lemma WordOf4(a: Byte, b: Byte, c: Byte, d: Byte)
    ensures Word([a, b, c, d]) == (a as nat) + 256 * ((b as nat) + 256 * ((c as nat) + 256 * (d as nat)))
  {
    assert [a, b, c, d][1..] == [b, c, d] && [b, c, d][1..] == [c, d] && [c, d][1..] == [d] && [d][1..] == [];
    assert Word([d]) == d && Word([c, d]) == c + 256 * (d as nat);
    assert Word([b, c, d]) == b + 256 * Word([c, d]);
  }

  /** Whatever the message is, its own checksum behind it leaves the register in one and the same state. */
  lemma Residue(message: seq<Byte>)
    ensures Feed(ONES, message + Trailer(Crc(message))) == Shifts(ONES, 32)
  {
    hide Xor, Feed, Shifts, Trailer, Word;
    var crc := Feed(ONES, message);
    Pow2Values();
    FeedInjective(ONES, ONES, message);
    XorBound(crc, ONES, 32);
    TrailerWord(Crc(message));
    FeedConcat(ONES, message, Trailer(Crc(message)));
    FeedIsShifts(crc, Trailer(Crc(message)));
    XorAssoc(crc, crc, ONES);
    XorSelf(crc);
    XorComm(0, ONES);
    XorZero(ONES);
  }
}
