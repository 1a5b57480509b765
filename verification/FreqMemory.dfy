/**
 The hardware frequency memory: three words for each of 85 channel steps, reached through an index
 and a strobe in a control register, and corrected in place word by word.
 */
module FreqMemory {
  import opened Bits
  import opened Machine
  import RfPll

  const STEPS: nat := 85

  // Fields of the control register: the index in bits 0 to 7, the write strobe in bit 9.
  function SetIndex(control: nat, index: nat): (r: nat)
    requires index < 256
  {
    control / 256 * 256 + index
  }

  predicate Strobed(control: nat) {
    control / 512 % 2 == 1
  }

  function SetStrobe(control: nat): (r: nat) {
    if Strobed(control) then control else control + 512
  }

  function ClearStrobe(control: nat): (r: nat) {
    if Strobed(control) then control - 512 else control
  }

  // Raising and clearing the strobe leaves the register as it was, and the index all along.
  lemma StrobeCycle(control: nat)
    requires !Strobed(control)
    ensures Strobed(SetStrobe(control)) && ClearStrobe(SetStrobe(control)) == control
    ensures SetStrobe(control) % 256 == control % 256
  {
    var p, r := control / 512 / 2, control % 512;
    assert control / 512 == 2 * p;
    var s, u := r / 256, r % 256;
    var low := 4 * p + s;
    assert control == 512 * (2 * p) + r == 256 * low + u;
    DivMod(256, low, u);
    DivMod(256, low + 2, u);
    DivMod(512, 2 * p + 1, r);
    Halve(1, p);
    StrobeIs(control, p, r);
  }

  lemma StrobeIs(control: nat, p: nat, r: nat)
    requires control == 512 * (2 * p) + r && r < 512 && (control + 512) / 512 == 2 * p + 1 && control / 512 == 2 * p
    ensures !Strobed(control) && Strobed(control + 512)
  {
    Halve(0, p);
    Halve(1, p);
  }

  lemma SetIndexFields(control: nat, index: nat)
    requires index < 256
    ensures SetIndex(control, index) % 256 == index && SetIndex(control, index) / 256 == control / 256
    ensures Strobed(SetIndex(control, index)) <==> Strobed(control)
  {
    DivMod(256, control / 256, index);
    Halve(control / 256 % 2, control / 256 / 2);
    HalfOf512(control);
    HalfOf512(SetIndex(control, index));
  }

  lemma HalfOf512(x: nat)
    ensures x / 512 == x / 256 / 2
  {
  }

  // A word of the first kind: a 9-bit capacitor value in bits 0 to 7 and 12, other settings in bits
  // 8 to 11 and 13 to 15.
  function Cap(word: nat): (c: nat)
    ensures c < 512
  {
    word % 256 + 256 * (word / 4096 % 2)
  }

  function Settings(word: nat): (s: nat) {
    word / 256 % 16 * 256 + word / 8192 % 8 * 8192
  }

  // The sum is cut to 16 bits, its upper byte is sign extended and shifted into place.
  function Rebuild(settings: nat, sum: int): (r: nat) {
    var cap := sum % 0x1_0000;
    var high := Signed16(cap) / 256 * 4096 % U32;
    Or(Or(settings, cap % 256), high)
  }

  // The word written back by `cap_memory`.
  function CapWord(word: nat, delta: int): (r: nat) {
    Rebuild(Settings(word), Cap(word) + delta)
  }

  // The offset in steps of the frequency code, in 32 bits and then cut to 16.
  function Scaled(chip: Chip, offset: int, mode: nat): (r: int) {
    var value := OffsetArgument(chip, offset);
    var product := if IsSet(chip, mode) then Signed32(27 * value) / 8 else Signed32(9 * value) / 4;
    Short(product)
  }

  /** The stored offset is the scaled value rounded down, just when that fits into 16 bits. */
  lemma ScaledIff(chip: Chip, value: int, mode: nat)
    ensures var r := Scaled(chip, value, mode);
      if (if chip == S3 then mode % 256 else mode) == 0
      then 4 * r <= 9 * value < 4 * r + 4 <==> -0x2_0000 <= 9 * value < 0x2_0000
      else 8 * r <= 27 * value < 8 * r + 8 <==> -0x4_0000 <= 27 * value < 0x4_0000
  {
    hide Short, Signed32;
    if -0x8000 <= value < 0x8000 {
      ShortIsExact(value);
      ScaledFits(9 * value, 4);
      ScaledFits(27 * value, 8);
    }
  }

  lemma ScaledFits(x: int, d: nat)
    requires (d == 4 || d == 8) && -0x8000_0000 <= x < 0x8000_0000
    ensures Signed32(x) == x
    ensures -0x8000 * d <= x < 0x8000 * d ==> Short(x / d) == x / d && d * (x / d) <= x < d * (x / d) + d
  {
    hide Short;
    Signed32IsExact(x);
    if -0x8000 * d <= x < 0x8000 * d {
      ShortIsExact(x / d);
    }
  }

  // A word of the second kind: a 24-bit frequency code.
  function Code(word: nat): (c: nat)
    ensures c < 0x100_0000
  {
    word % 0x100_0000
  }

  // The word written back by `correct_offset`.
  function CodeWord(word: nat, delta: int): (r: nat) {
    Or((Code(word) + delta) % U32, word / 0x100_0000 * 0x100_0000)
  }

  // The parts of a word of the first kind do not overlap.
  lemma Assemble(a: nat, b: nat, low: nat, high: nat)
    requires a < 16 && low < 256 && high < 2
    ensures Or(Or(256 * a + 8192 * b, low), 4096 * high) == 8192 * b + 4096 * high + 256 * a + low
  {
    hide Or;
    assert Pow2(1) == 2 && Pow2(12) == 4096 && Pow2(8) == 256;
    OrJoin(a + 32 * b, low, 8);
    OrSplit(2 * b, high, 256 * a + low, 0, 12);
    OrJoin(b, high, 1);
    OrZero(256 * a + low);
  }

  lemma Disassemble(a: nat, b: nat, low: nat, high: nat)
    requires a < 16 && b < 8 && low < 256 && high < 2
    ensures var word := 8192 * b + 4096 * high + 256 * a + low;
      Cap(word) == 256 * high + low && Settings(word) == 256 * a + 8192 * b && word < 0x1_0000
  {
    var word := 8192 * b + 4096 * high + 256 * a + low;
    DivMod(256, 16 * (2 * b + high) + a, low);
    DivMod(16, 2 * b + high, a);
    DivMod(4096, 2 * b + high, 256 * a + low);
    DivMod(2, b, high);
    DivMod(8192, b, 4096 * high + 256 * a + low);
    assert word == 256 * (16 * (2 * b + high) + a) + low;
    assert word == 4096 * (2 * b + high) + (256 * a + low);
  }

  // Where a capacitor value is in a word.
  function CapBits(cap: nat): (bits: nat) {
    cap % 256 + cap / 256 * 4096
  }

  // The capacitor value and the settings are all there is in the lower half of a word.
  lemma WordIsSplit(word: nat)
    ensures word % 0x1_0000 == Settings(word) + CapBits(Cap(word))
  {
    hide Settings, Cap, CapBits;
    var r1 := word / 256;
    var r2 := r1 / 16;
    var r3 := r2 / 2;
    assert word == 256 * r1 + word % 256 && r1 == 16 * r2 + r1 % 16 && r2 == 2 * r3 + r2 % 2 && r3 == 8 * (r3 / 8) + r3 % 8;
    SplitOf(r3 / 8, r3 % 8, r2 % 2, r1 % 16, word % 256);
  }

  lemma SplitOf(h: nat, b: nat, high: nat, a: nat, low: nat)
    requires b < 8 && high < 2 && a < 16 && low < 256
    ensures var word := 256 * (16 * (2 * (8 * h + b) + high) + a) + low;
      word % 0x1_0000 == Settings(word) + CapBits(Cap(word))
  {
    var r3 := 8 * h + b;
    var r2 := 2 * r3 + high;
    var r1 := 16 * r2 + a;
    var word := 256 * r1 + low;
    DivMod(256, r1, low);
    DivMod(16, r2, a);
    DivMod(4096, r2, 256 * a + low);
    DivMod(2, r3, high);
    DivMod(8192, r3, 4096 * high + 256 * a + low);
    DivMod(8, h, b);
    DivMod(0x1_0000, h, 8192 * b + 4096 * high + 256 * a + low);
    DivMod(256, high, low);
    assert word == 4096 * r2 + (256 * a + low) == 8192 * r3 + (4096 * high + 256 * a + low);
    assert word == 0x1_0000 * h + (8192 * b + 4096 * high + 256 * a + low);
    assert Cap(word) == 256 * high + low && Settings(word) == 256 * a + 8192 * b;
  }

  lemma RebuildInRange(a: nat, b: nat, sum: nat)
    requires a < 16 && b < 8 && sum < 512
    ensures Rebuild(256 * a + 8192 * b, sum) == 8192 * b + 4096 * (sum / 256) + 256 * a + sum % 256
  {
    hide Or;
    assert sum % 0x1_0000 == sum && Signed16(sum) == sum;
    assert sum / 256 * 4096 % U32 == 4096 * (sum / 256);
    Assemble(a, b, sum % 256, sum / 256);
  }

  // In range, the capacitor value moves by `delta` and the settings stay.
  lemma CapWordInRange(word: nat, delta: int)
    requires 0 <= Cap(word) + delta < 512
    ensures Cap(CapWord(word, delta)) == Cap(word) + delta && Settings(CapWord(word, delta)) == Settings(word)
    ensures CapWord(word, delta) < 0x1_0000
    ensures CapWord(word, delta) - CapBits(Cap(word) + delta) == word % 0x1_0000 - CapBits(Cap(word))
  {
    hide Rebuild, Cap;
    WordIsSplit(word);
    WordIsSplit(CapWord(word, delta));
    var a, b, sum := word / 256 % 16, word / 8192 % 8, Cap(word) + delta;
    RebuildInRange(a, b, sum);
    Disassemble(a, b, sum % 256, sum / 256);
  }

  /** The capacitor value is moved by `delta` just when the result fits into nine bits. */
  lemma CapWordIff(word: nat, delta: int)
    ensures Cap(CapWord(word, delta)) == Cap(word) + delta <==> 0 <= Cap(word) + delta < 512
  {
    hide CapWord;
    if 0 <= Cap(word) + delta < 512 {
      CapWordInRange(word, delta);
    }
  }

  lemma CodeWordInRange(word: nat, delta: int)
    requires word < U32 && 0 <= Code(word) + delta < 0x100_0000
    ensures CodeWord(word, delta) == word + delta
  {
    hide Or;
    Pow2Values();
    var high := word / 0x100_0000;
    OrJoin(high, Code(word) + delta, 24);
    assert high * 0x100_0000 == 0x100_0000 * high;
  }

  /** The frequency code is moved by `delta` just when the result fits into 24 bits. */
  lemma CodeWordIff(word: nat, delta: int)
    requires word < U32
    ensures Code(CodeWord(word, delta)) == Code(word) + delta <==> 0 <= Code(word) + delta < 0x100_0000
  {
    hide CodeWord;
    if 0 <= Code(word) + delta < 0x100_0000 {
      CodeWordInRange(word, delta);
    }
  }

  // All words of one kind, changed by `f`.
  function MapKind(words: seq<nat>, kind: nat, f: nat -> nat): (r: seq<nat>)
    ensures |r| == |words|
    ensures forall j :: 0 <= j < |words| ==>
      r[j] == if j < 3 * STEPS && j % 3 == kind then f(words[j]) else words[j]
  {
    seq(|words|, j requires 0 <= j < |words| => if j < 3 * STEPS && j % 3 == kind then f(words[j]) else words[j])
  }

  /** The memory with its registers. Raising the strobe stores the data register at the index. */
  class Device {
    var control: nat
    var data: nat
    var words: seq<nat>
    // The offset the frequency codes contain.
    var stored: int
    var initialized: bool

    ghost predicate Valid()
      reads this
    {
      |words| == 256 && !Strobed(control)
    }

    constructor (words: seq<nat>)
      requires |words| == 256
      ensures Valid() && this.words == words && stored == 0 && !initialized
    {
      control, data, this.words, stored, initialized := 0, 0, words, 0, false;
    }

    method WriteControl(value: nat)
      requires |words| == 256
      modifies `control, `words
      ensures control == value
      ensures words == if !Strobed(old(control)) && Strobed(value) then old(words)[value % 256 := data] else old(words)
    {
      if !Strobed(control) && Strobed(value) {
        words := words[value % 256 := data];
      }
      control := value;
    }

    // The word at the index.
    function ReadData(): (value: nat)
      requires |words| == 256
      reads `words, `control
    {
      words[control % 256]
    }

    method Select(index: nat)
      requires Valid() && index < 256
      modifies `control, `words
      ensures Valid() && words == old(words) && control % 256 == index && control / 256 == old(control) / 256
    {
      hide SetIndex, Strobed;
      SetIndexFields(control, index);
      WriteControl(SetIndex(control, index));
    }

    // Store a word at the selected index.
    method Strobe(value: nat)
      requires Valid()
      modifies `control, `data, `words
      ensures Valid() && control == old(control)
      ensures words == old(words)[control % 256 := value]
    {
      hide SetStrobe, ClearStrobe, Strobed;
      StrobeCycle(control);
      data := value;
      WriteControl(SetStrobe(control));
      WriteControl(ClearStrobe(control));
    }

    /** Write the three words of a channel step. */
    method Memory(index: nat, buffer: seq<nat>)
      requires Valid() && index < STEPS && |buffer| == 3
      modifies this
      ensures Valid()
      ensures forall j :: 0 <= j < 256 ==>
        words[j] == if 3 * index <= j < 3 * index + 3 then buffer[j - 3 * index] else old(words)[j]
    {
      for i := 0 to 3
        invariant Valid()
        invariant forall j :: 0 <= j < 256 ==>
          words[j] == if 3 * index <= j < 3 * index + i then buffer[j - 3 * index] else old(words)[j]
      {
        Select((3 * index + i) % 256);
        Strobe(buffer[i]);
      }
    }

    /** Move all capacitor values. */
    method CapMemory(delta: int)
      requires Valid()
      modifies this
      ensures Valid() && Memo(words, stored) == Apply(Memo(old(words), old(stored)), MoveCap(delta))
    {
      hide CapWord;
      for i := 0 to STEPS
        invariant Valid() && stored == old(stored)
        invariant forall j :: 0 <= j < 256 ==>
          words[j] == if j < 3 * i && j % 3 == 0 then CapWord(old(words)[j], delta) else old(words)[j]
      {
        Select(3 * i);
        var word := ReadData();
        Strobe(CapWord(word, delta));
      }
    }

    /** Bring all frequency codes from the stored offset to the one that belongs to `value`. */
    method CorrectOffset(chip: Chip, value: int, mode: nat)
      requires Valid()
      modifies this
      ensures Valid()
      ensures Memo(words, stored) == Apply(Memo(old(words), old(stored)), SetOffset(Scaled(chip, value, mode)))
    {
      hide CodeWord, Scaled;
      var scaled := Scaled(chip, value, mode);
      if stored == scaled {
        return;
      }
      var delta := scaled - stored;
      for i := 0 to STEPS
        invariant Valid() && stored == old(stored)
        invariant forall j :: 0 <= j < 256 ==>
          words[j] == if j < 3 * i && j % 3 == 1 then CodeWord(old(words)[j], delta) else old(words)[j]
      {
        Select(3 * i + 1);
        var word := ReadData();
        Strobe(CodeWord(word, delta));
      }
      stored := scaled;
    }

    /**
     Fill the memory: capacitor values on the line through the values `low` and `high` measured 64
     steps apart, and the codes of the frequencies from 2400 MHz on. This is done once.
     */
    method Initialize(chip: Chip, selector: Byte, low: nat, high: nat, saved: nat)
      requires Valid() && low < 512 && high < 512 && saved < 16
      modifies this
      ensures Valid() && initialized
      ensures old(initialized) ==> words == old(words) && stored == old(stored)
      ensures !old(initialized) ==> stored == 0 && words[255] == old(words)[255] && forall i :: 0 <= i < STEPS ==>
        IsStep(words[3 * i], words[3 * i + 1], words[3 * i + 2], CapAt(low, high - low, i), saved,
               RfPll.ExactCode(chip, selector, 2400 + i))
    {
      hide IsStep, CapAt, FirstWord, RfPll.ExactCode, RfPll.Digits;
      if initialized {
        return;
      }
      var delta := high - low;
      var accumulated := 0;
      for i := 0 to STEPS
        invariant Valid() && accumulated == i * delta && words[255] == old(words)[255]
        invariant forall k :: 0 <= k < i ==>
          IsStep(words[3 * k], words[3 * k + 1], words[3 * k + 2], CapAt(low, delta, k), saved,
                 RfPll.ExactCode(chip, selector, 2400 + k))
      {
        var code := RfPll.StepCode(chip, selector, 2400 + i);
        var cap := Clamp(low + TruncatedQuotient(accumulated, 64));
        StepWords(low, delta, saved, i, code);
        Memory(i, [FirstWord(cap, saved), code, 0]);
        accumulated := accumulated + delta;
      }
      initialized := true;
      stored := 0;
    }
  }

  // The three words of a step: capacitor value and settings, frequency code, nothing.
  predicate IsStep(first: nat, second: nat, third: nat, cap: nat, saved: nat, code: int) {
    Cap(first) == cap && Settings(first) == 256 * saved + 0x8000 && first < 0x1_0000 && second == code && third == 0
  }

  function Clamp(x: int): (r: nat)
    ensures r < 512
  {
    if x < 0 then 0 else if 511 < x then 511 else x
  }

  // The capacitor value of step `i`.
  function CapAt(low: nat, delta: int, i: nat): (cap: nat)
    ensures cap < 512
  {
    Clamp(low + TruncatedQuotient(i * delta, 64))
  }

  /**
   The capacitor values are on the line from `low` to `high`, 64 steps away, rounded towards `low`, and
   stay at the end of the range which the line crosses.
   */
  lemma CapLine(low: nat, high: nat, i: nat)
    requires low < 512 && high < 512
    ensures var cap, x := CapAt(low, high - low, i), i * (high - low);
      if low <= high
      then if cap < 511 then 64 * (cap - low) <= x < 64 * (cap - low) + 64 else 64 * (511 - low) <= x
      else if 0 < cap then 64 * (low - cap) <= -x < 64 * (low - cap) + 64 else 64 * low <= -x
  {
    var delta := high - low;
    var x := i * delta;
    assert low <= high ==> 0 <= x;
    assert high < low ==> x <= 0;
    CapLineOf(low, x);
  }

  lemma CapLineOf(low: nat, x: int)
    requires low < 512
    ensures var cap := Clamp(low + TruncatedQuotient(x, 64));
      && (0 <= x ==> if cap < 511 then 64 * (cap - low) <= x < 64 * (cap - low) + 64 else 64 * (511 - low) <= x)
      && (x <= 0 ==> if 0 < cap then 64 * (low - cap) <= -x < 64 * (low - cap) + 64 else 64 * low <= -x)
  {
  }

  // Bit 8 of the capacitor value, the saved setting, and bit 7 of the upper byte set.
  function FirstWord(cap: nat, saved: nat): (w: nat) {
    (128 + cap / 256 * 16 + saved) % 256 * 256 + cap % 256
  }

  lemma FirstWordHoldsCap(cap: nat, saved: nat)
    requires cap < 512 && saved < 16
    ensures var w := FirstWord(cap, saved); Cap(w) == cap && Settings(w) == 256 * saved + 0x8000 && w < 0x1_0000
  {
    hide Cap, Settings;
    var high, low := cap / 256, cap % 256;
    Disassemble(saved, 4, low, high);
    assert 128 + high * 16 + saved < 256;
  }

  lemma StepWords(low: nat, delta: int, saved: nat, i: nat, code: nat)
    requires saved < 16
    ensures CapAt(low, delta, i) == Clamp(low + TruncatedQuotient(i * delta, 64))
    ensures IsStep(FirstWord(CapAt(low, delta, i), saved), code, 0, CapAt(low, delta, i), saved, code)
  {
    hide Cap, Settings, FirstWord;
    FirstWordHoldsCap(CapAt(low, delta, i), saved);
  }

  // What is in the memory, and the offset its codes have been corrected to.
  datatype Memo = Memo(words: seq<nat>, stored: int)

  datatype Correction = MoveCap(delta: int) | SetOffset(scaled: int)

  function Apply(m: Memo, c: Correction): (m': Memo) {
    match c
    case MoveCap(delta) => m.(words := MapKind(m.words, 0, w => CapWord(w, delta)))
    case SetOffset(scaled) =>
      if scaled == m.stored then m else
      Memo(MapKind(m.words, 1, w => CodeWord(w, scaled - m.stored)), scaled)
  }

  function Run(m: Memo, cs: seq<Correction>): (m': Memo) {
    if cs == [] then m else Apply(Run(m, cs[..|cs| - 1]), cs[|cs| - 1])
  }

  // The sum of all moves, and the last offset set.
  function CapSum(cs: seq<Correction>): (sum: int) {
    if cs == [] then 0 else
    CapSum(cs[..|cs| - 1]) + if cs[|cs| - 1].MoveCap? then cs[|cs| - 1].delta else 0
  }

  function LastOffset(stored: int, cs: seq<Correction>): (offset: int) {
    if cs == [] then stored else
    if cs[|cs| - 1].SetOffset? then cs[|cs| - 1].scaled else LastOffset(stored, cs[..|cs| - 1])
  }

  // All fields have room for the moves made so far.
  ghost predicate Fits(m: Memo, capSum: int, offset: int)
    requires |m.words| == 256
  {
    && (forall i :: 0 <= i < STEPS ==> 0 <= Cap(m.words[3 * i]) + capSum < 512)
    && (forall i :: 0 <= i < STEPS ==> 0 <= Code(m.words[3 * i + 1]) + offset - m.stored < 0x100_0000)
  }

  // That holds all along the run.
  ghost predicate StaysInRange(m: Memo, cs: seq<Correction>)
    requires |m.words| == 256
  {
    cs == [] || (StaysInRange(m, cs[..|cs| - 1]) && Fits(m, CapSum(cs), LastOffset(m.stored, cs)))
  }

  // The memory is the one of `m`, moved by `capSum` and to `offset`.
  ghost predicate Moved(m: Memo, m': Memo, capSum: int, offset: int) {
    && |m.words| == |m'.words| == 256 && m'.stored == offset
    && (forall j :: 0 <= j < 256 ==> m'.words[j] < U32)
    && (forall j :: 0 <= j < 256 && (j % 3 == 2 || j == 255) ==> m'.words[j] == m.words[j])
    && (forall j :: 0 <= j < 255 && j % 3 == 1 ==> m'.words[j] == m.words[j] + offset - m.stored)
    && (forall j :: 0 <= j < 255 && j % 3 == 0 ==>
          Cap(m'.words[j]) == Cap(m.words[j]) + capSum && Settings(m'.words[j]) == Settings(m.words[j]))
  }

  lemma MoveCapMoves(m: Memo, m': Memo, capSum: int, offset: int, delta: int)
    requires Moved(m, m', capSum, offset) && Fits(m, capSum + delta, offset)
    ensures Moved(m, Apply(m', MoveCap(delta)), capSum + delta, offset)
  {
    hide Cap, Settings, CapWord;
    forall j | 0 <= j < 255 && j % 3 == 0
      ensures var w := CapWord(m'.words[j], delta);
        w < U32 && Cap(w) == Cap(m.words[j]) + capSum + delta && Settings(w) == Settings(m.words[j])
    {
      assert j == 3 * (j / 3);
      CapWordInRange(m'.words[j], delta);
    }
  }

  lemma SetOffsetMoves(m: Memo, m': Memo, capSum: int, offset: int, scaled: int)
    requires Moved(m, m', capSum, offset) && Fits(m, capSum, scaled) && Fits(m, capSum, offset)
    ensures Moved(m, Apply(m', SetOffset(scaled)), capSum, scaled)
  {
    hide Cap, Settings, CodeWord;
    forall j | 0 <= j < 255 && j % 3 == 1
      ensures var w := CodeWord(m'.words[j], scaled - offset);
        w < U32 && w == m.words[j] + scaled - m.stored
    {
      assert j == 3 * (j / 3) + 1;
      CodeInRange(m.words[j], offset - m.stored, scaled - m.stored);
      CodeWordInRange(m'.words[j], scaled - offset);
    }
  }

  lemma CodeInRange(word: nat, a: int, b: int)
    requires 0 <= Code(word) + a < 0x100_0000 && 0 <= Code(word) + b < 0x100_0000
    ensures 0 <= word + a && Code(word + a) == Code(word) + a
    ensures 0 <= word + b && (word + a < U32 ==> word + b < U32)
  {
    assert word == 0x100_0000 * (word / 0x100_0000) + Code(word);
    DivMod(0x100_0000, word / 0x100_0000, Code(word) + a);
    DivMod(0x100_0000, word / 0x100_0000, Code(word) + b);
  }

  /**
   Over every run of corrections that stays in range, each capacitor value is its first value plus
   all moves, each frequency code its first value plus the stored offset, and nothing else changes.
   */
  lemma {:induction false} RunMoves(m: Memo, cs: seq<Correction>)
    requires |m.words| == 256 && (forall j :: 0 <= j < 256 ==> m.words[j] < U32)
    requires Fits(m, 0, m.stored) && StaysInRange(m, cs)
    ensures Moved(m, Run(m, cs), CapSum(cs), LastOffset(m.stored, cs))
    ensures Fits(m, CapSum(cs), LastOffset(m.stored, cs))
    decreases |cs|
  {
    if cs != [] {
      var front, last := cs[..|cs| - 1], cs[|cs| - 1];
      RunMoves(m, front);
      match last
      case MoveCap(delta) => MoveCapMoves(m, Run(m, front), CapSum(front), LastOffset(m.stored, front), delta);
      case SetOffset(scaled) => SetOffsetMoves(m, Run(m, front), CapSum(front), LastOffset(m.stored, front), scaled);
    }
  }
}
