/**
 The receive gain table: `generate` encodes a gain for every entry and packs two entries into a
 word, `write_memory` reads the entries back.
 */
module RxGain {
  import opened Bits
  import opened Machine

  const COEFFICIENTS: seq<nat> := [0, 1, 5, 13, 29]

  function SignedByte(b: Byte): (r: int)
    ensures -128 <= r < 128 && (r == b || r == b - 256)
  {
    if b < 128 then b else b - 256
  }

  // An entry: the code of its input in the upper byte, six gain steps to each bit of the coefficient
  // in bits 3 to 7, the remainder below.
  function Pack(code: Byte, gain: nat): (w: nat)
    requires gain < 30
  {
    (code * 256 + COEFFICIENTS[gain / 6] * 8 + gain % 6) % 0x1_0000
  }

  function PopCount(x: nat): (n: nat) {
    if x == 0 then 0 else x % 2 + PopCount(x / 2)
  }

  function DecodeGain(word: nat): (gain: nat) {
    (PopCount(word / 8 % 64) * 6 + word % 8) % 256
  }

  // The gain field of an entry, in numbers.
  lemma PackMeaning(code: Byte, gain: nat)
    requires gain < 30
    ensures Pack(code, gain) == 256 * (code as nat) + gain % 6 +
      if gain < 6 then 0 else if gain < 12 then 8 else if gain < 18 then 40 else if gain < 24 then 104 else 232
  {
  }

  lemma PopCountOfCoefficient(i: nat)
    requires i < 5
    ensures PopCount(COEFFICIENTS[i]) == i
  {
    assert PopCount(1) == 1 && PopCount(5) == 1 + PopCount(2) && PopCount(2) == PopCount(1);
    assert PopCount(3) == 2 && PopCount(6) == 2 && PopCount(13) == 1 + PopCount(6);
    assert PopCount(7) == 1 + PopCount(3) && PopCount(14) == PopCount(7) && PopCount(29) == 1 + PopCount(14);
  }

  lemma PopCountSetBit5(c: nat)
    requires c in COEFFICIENTS
    ensures PopCount(32 + c) == 1 + PopCount(c)
  {
    PopCountShift(c, 5);
  }

  lemma {:induction false} PopCountShift(c: nat, k: nat)
    requires c < Pow2(k)
    ensures PopCount(Pow2(k) + c) == 1 + PopCount(c)
    decreases k
  {
    if k != 0 {
      PopCountShift(c / 2, k - 1);
      assert (Pow2(k) + c) / 2 == Pow2(k - 1) + c / 2 && (Pow2(k) + c) % 2 == c % 2;
    }
  }

  lemma PackFields(code: Byte, gain: nat)
    requires gain < 30
    ensures var w := Pack(code, gain);
      && w < 0x1_0000 && w / 256 == code && w % 8 == gain % 6
      && w / 8 % 64 == 32 * (code % 2) + COEFFICIENTS[gain / 6]
  {
    var c, r := COEFFICIENTS[gain / 6], gain % 6;
    var w := Pack(code, gain);
    assert c < 30 && w == 256 * code + (8 * c + r);
    DivMod(256, code, 8 * c + r);
    assert w == 8 * (32 * code + c) + r;
    DivMod(8, 32 * code + c, r);
    assert 32 * code + c == 64 * (code / 2) + (32 * (code % 2) + c);
    DivMod(64, code / 2, 32 * (code % 2) + c);
  }

  /**
   An entry gives back its code, and it gives back its gain just when the code is even: the field
   that is counted extends into the lowest bit of the code, which makes an odd code add six steps.
   */
  lemma CodecRoundTripIff(code: Byte, gain: nat)
    requires gain < 30
    ensures Pack(code, gain) / 256 == code
    ensures DecodeGain(Pack(code, gain)) == gain <==> code % 2 == 0
    ensures code % 2 == 1 ==> DecodeGain(Pack(code, gain)) == gain + 6
  {
    hide PopCount, Pack;
    PackFields(code, gain);
    PopCountOfCoefficient(gain / 6);
    PopCountSetBit5(COEFFICIENTS[gain / 6]);
  }

  // The tables `generate` walks: for each input a code, a number of steps and a first gain. Only the
  // first `count` inputs are used, and no gain exceeds what the coefficients can express.
  datatype Inputs = Inputs(codes: seq<Byte>, steps: seq<Byte>, starts: seq<Byte>, count: nat, max: nat) {
    ghost predicate Valid() {
      && 0 < |codes| == |steps| == |starts| && count <= |codes| && count < 256
      && max < 29 && forall j :: 0 <= j < |starts| ==> starts[j] < 30
    }
  }

  // The input and the gain of an entry.
  datatype Position = Position(input: nat, gain: nat)

  // The next input with any steps, or the last one.
  function NextInput(t: Inputs, input: nat): (r: nat)
    requires t.Valid() && input + 1 < t.count
    ensures input < r < t.count
    decreases t.count - input
  {
    if t.steps[input + 1] != 0 || t.count - 1 <= input + 1 then input + 1 else NextInput(t, input + 1)
  }

  // Move on to the next input when the steps of this one are used up.
  function Switch(t: Inputs, p: Position): (r: Position)
    requires t.Valid() && p.input < |t.codes| && p.gain < 30
    ensures r.input < |t.codes| && r.gain < 30
  {
    if p.gain == SignedByte(t.steps[p.input]) + SignedByte(t.starts[p.input]) && p.input + 1 < t.count
    then var input := NextInput(t, p.input); Position(input, t.starts[input])
    else p
  }

  // The position of entry `k`, as long as the gain stays within the maximum; the walk ends one above.
  function PositionOf(t: Inputs, k: nat): (p: Position)
    requires t.Valid()
    ensures p.input < |t.codes| && p.gain < 30
  {
    if k == 0 then Switch(t, Position(0, t.starts[0])) else
    var p := PositionOf(t, k - 1);
    Switch(t, Position(p.input, if p.gain <= t.max then p.gain + 1 else p.gain))
  }

  function EntryOf(t: Inputs, k: nat): (w: nat)
    requires t.Valid()
  {
    var p := PositionOf(t, k);
    Pack(t.codes[p.input], p.gain)
  }

  // Half a word: the entry with index `k`.
  function Half(out: seq<nat>, k: nat): (w: nat)
    requires k / 2 < |out|
  {
    if k % 2 == 0 then out[k / 2] % 0x1_0000 else out[k / 2] / 0x1_0000
  }

  lemma PackInto(word: nat, entry: nat)
    requires word < 0x1_0000 && entry < 0x1_0000
    ensures (word + entry * 0x1_0000) % U32 % 0x1_0000 == word && (word + entry * 0x1_0000) % U32 / 0x1_0000 == entry
  {
  }

  /**
   Fill the table. `entries` entries are written, the last one being the first above the maximum
   unless the table is full; the result is its index, or 85 for a full table.
   */
  method Generate(t: Inputs, out: array<nat>) returns (result: nat, ghost entries: nat)
    requires t.Valid() && 64 <= out.Length
    modifies out
    ensures 0 < entries <= 127
    ensures forall k :: 0 <= k < entries ==> Half(out[..], k) == EntryOf(t, k)
    ensures forall k :: 0 <= k < entries - 1 ==> PositionOf(t, k).gain <= t.max
    ensures if t.max < PositionOf(t, entries - 1).gain then result == entries - 1 else entries == 127 && result == 85
    ensures forall j :: (entries + 1) / 2 <= j < out.Length ==> out[j] == old(out[j])
  {
    hide PositionOf, EntryOf, Switch, Half;
    var input: nat, gain: nat, index: nat := 0, t.starts[0], 0;
    FirstPosition(t);
    entries := 0;
    while true
      invariant 0 <= index < 127 && entries == index && input < |t.codes| && gain < 30
      invariant Switch(t, Position(input, gain)) == PositionOf(t, index)
      invariant forall k :: 0 <= k < index ==> Half(out[..], k) == EntryOf(t, k)
      invariant forall k :: 0 <= k < index ==> PositionOf(t, k).gain <= t.max
      invariant index % 2 == 1 ==> out[index / 2] < 0x1_0000
      invariant forall j :: (index + 1) / 2 <= j < out.Length ==> out[j] == old(out[j])
      decreases 127 - index
    {
      input, gain := MakeEntry(t, out, index, input, gain);
      entries := index + 1;
      NextPosition(t, index);
      if t.max < gain {
        return index % 256, entries;
      }
      gain := (gain + 1) % 256;
      index := index + 1;
      if index == 127 {
        return 85, entries;
      }
    }
  }

  // One turn of the loop.
  method MakeEntry(t: Inputs, out: array<nat>, index: nat, input: nat, gain: nat) returns (input': nat, gain': nat)
    requires t.Valid() && index < 127 && 64 <= out.Length && input < |t.codes| && gain < 30
    requires Switch(t, Position(input, gain)) == PositionOf(t, index)
    requires index % 2 == 1 ==> out[index / 2] < 0x1_0000
    modifies out
    ensures input' < |t.codes| && gain' < 30 && Position(input', gain') == PositionOf(t, index)
    ensures Half(out[..], index) == EntryOf(t, index)
    ensures forall k :: 0 <= k < index ==> Half(out[..], k) == old(Half(out[..], k))
    ensures index % 2 == 0 ==> out[index / 2] < 0x1_0000
    ensures forall j :: 0 <= j < out.Length && j != index / 2 ==> out[j] == old(out[j])
  {
    hide PositionOf, Pack, Switch, Half;
    input', gain' := SwitchInput(t, input, gain);
    var packed := Pack(t.codes[input'], gain');
    PackFields(t.codes[input'], gain');
    WriteEntry(out, index, packed);
  }

  lemma FirstPosition(t: Inputs)
    requires t.Valid()
    ensures Switch(t, Position(0, t.starts[0])) == PositionOf(t, 0)
  {
  }

  lemma NextPosition(t: Inputs, k: nat)
    requires t.Valid()
    ensures var p := PositionOf(t, k);
      p.gain <= t.max ==> PositionOf(t, k + 1) == Switch(t, Position(p.input, p.gain + 1))
  {
  }

  method SwitchInput(t: Inputs, input: nat, gain: nat) returns (input': nat, gain': nat)
    requires t.Valid() && input < |t.codes| && gain < 30
    ensures Position(input', gain') == Switch(t, Position(input, gain))
    ensures input' < |t.codes| && gain' < 30
  {
    input', gain' := input, gain;
    if gain == SignedByte(t.steps[input]) + SignedByte(t.starts[input]) && input < t.count - 1 {
      input' := input + 1;
      while !(t.steps[input'] != 0 || t.count - 1 <= input')
        invariant input < input' < t.count
        invariant NextInput(t, input) == NextInput(t, input' - 1)
        decreases t.count - input'
      {
        input' := input' + 1;
      }
      gain' := t.starts[input'];
    }
  }

  // An even entry starts a word, an odd one is added to it.
  method WriteEntry(out: array<nat>, index: nat, packed: nat)
    requires index < 127 && 64 <= out.Length && packed < 0x1_0000
    requires index % 2 == 1 ==> out[index / 2] < 0x1_0000
    modifies out
    ensures Half(out[..], index) == packed
    ensures forall k :: 0 <= k < index ==> Half(out[..], k) == old(Half(out[..], k))
    ensures index % 2 == 0 ==> out[index / 2] < 0x1_0000
    ensures forall j :: 0 <= j < out.Length && j != index / 2 ==> out[j] == old(out[j])
  {
    if index % 2 != 0 {
      PackInto(out[index / 2], packed);
      out[index / 2] := (out[index / 2] + packed * 0x1_0000) % U32;
    } else {
      out[index / 2] := packed;
    }
  }

  // Every input but the last has steps, and neighbours can be told apart by their codes.
  ghost predicate Readable(t: Inputs)
    requires t.Valid()
  {
    && (forall j :: 0 <= j < t.count - 1 ==> t.steps[j] != 0 && t.codes[j] != t.codes[j + 1])
    && (forall j :: 0 <= j < |t.codes| ==> t.codes[j] % 2 == 0)
  }

  // The index at which an input starts: those in front of it have as many entries as they have steps.
  function StartOf(t: Inputs, input: nat): (k: nat)
    requires t.Valid() && input < |t.codes|
  {
    if input == 0 then 0 else StartOf(t, input - 1) + t.steps[input - 1]
  }

  // All entries in front of the `m`-th one of an input are made before the maximum is passed.
  ghost predicate Reached(t: Inputs, input: nat, m: nat)
    requires t.Valid() && input < |t.codes|
  {
    && t.starts[input] + m <= t.max + 1 && (forall j :: 0 <= j <= input ==> t.steps[j] < 128)
    && forall j :: 0 <= j < input ==> t.starts[j] + t.steps[j] <= t.max + 1
  }

  /**
   The entries of an input have the gains from its first one on, each once, and as many as it has steps;
   the entries of the next input follow. The last input goes on until the maximum is passed.
   */
  lemma {:induction false} EntriesOfInput(t: Inputs, input: nat, m: nat)
    requires t.Valid() && Readable(t) && input < t.count && (m < t.steps[input] || input == t.count - 1)
    requires Reached(t, input, m)
    ensures PositionOf(t, StartOf(t, input) + m) == Position(input, t.starts[input] + m)
    decreases input, m
  {
    hide PositionOf, Switch;
    if 0 < m {
      EntriesOfInput(t, input, m - 1);
      NextPosition(t, StartOf(t, input) + m - 1);
      SwitchStays(t, input, m);
    } else if 0 < input {
      var steps := t.steps[input - 1];
      EntriesOfInput(t, input - 1, steps - 1);
      NextPosition(t, StartOf(t, input) - 1);
      SwitchMoves(t, input - 1);
    } else {
      FirstPosition(t);
      SwitchStays(t, 0, 0);
    }
  }

  lemma SwitchStays(t: Inputs, input: nat, m: nat)
    requires t.Valid() && input < t.count && t.steps[input] < 128 && t.starts[input] + m < 30
    requires m < t.steps[input] || input == t.count - 1
    ensures var p := Position(input, t.starts[input] + m); Switch(t, p) == p
  {
  }

  lemma SwitchMoves(t: Inputs, input: nat)
    requires t.Valid() && Readable(t) && input + 1 < t.count && t.steps[input] < 128
    requires t.starts[input] + t.steps[input] < 30
    ensures Switch(t, Position(input, t.starts[input] + t.steps[input])) == Position(input + 1, t.starts[input + 1])
  {
    assert NextInput(t, input) == input + 1;
  }

  // The reader moves on by one input whenever the code of an entry is not that of the current one.
  function Follow(codes: seq<Byte>, input: nat, word: nat): (r: nat)
    requires input < |codes|
  {
    if word / 256 != codes[input] then input + 1 else input
  }

  lemma SwitchByOne(t: Inputs, p: Position)
    requires t.Valid() && Readable(t) && p.input < |t.codes| && p.gain < 30
    ensures Switch(t, p).input == p.input || (Switch(t, p).input == p.input + 1 < t.count)
  {
  }

  lemma {:induction false} FirstInput(t: Inputs)
    requires t.Valid() && Readable(t)
    ensures PositionOf(t, 0).input == 0
  {
    if 1 < t.count {
      assert t.steps[0] != 0;
    }
  }

  // One entry keeps the reader in step.
  lemma FollowStep(t: Inputs, k: nat)
    requires t.Valid() && Readable(t)
    ensures var before := if k == 0 then 0 else PositionOf(t, k - 1).input;
      before < |t.codes| && Follow(t.codes, before, EntryOf(t, k)) == PositionOf(t, k).input
    ensures DecodeGain(EntryOf(t, k)) == PositionOf(t, k).gain
  {
    hide Pack, DecodeGain;
    var p := PositionOf(t, k);
    CodecRoundTripIff(t.codes[p.input], p.gain);
    if k == 0 {
      FirstInput(t);
    } else {
      var q := PositionOf(t, k - 1);
      SwitchByOne(t, Position(q.input, if q.gain <= t.max then q.gain + 1 else q.gain));
    }
  }

  /** Reading a generated table recovers the input and the gain of every entry. */
  method ReadBack(t: Inputs, out: array<nat>, entries: nat) returns (positions: seq<Position>)
    requires t.Valid() && Readable(t) && entries <= 127 && 64 <= out.Length
    requires forall k :: 0 <= k < entries ==> Half(out[..], k) == EntryOf(t, k)
    ensures |positions| == entries && forall k :: 0 <= k < entries ==> positions[k] == PositionOf(t, k)
  {
    hide PositionOf, EntryOf, DecodeGain;
    var input := 0;
    positions := [];
    for index := 0 to entries
      invariant |positions| == index && forall k :: 0 <= k < index ==> positions[k] == PositionOf(t, k)
      invariant input == if index == 0 then 0 else PositionOf(t, index - 1).input
    {
      FollowStep(t, index);
      var word := if index % 2 == 0 then out[index / 2] % 0x1_0000 else out[index / 2] / 0x1_0000;
      assert word == Half(out[..], index);
      var gain := DecodeGain(word);
      if word / 256 != t.codes[input] {
        input := input + 1;
      }
      positions := positions + [Position(input, gain)];
    }
  }

  // The tables of the two chips, those for mode 1 and those for mode 0.
  const S3_MODE1 := Inputs([160, 132, 134, 226, 232, 208, 244, 248, 254], [7, 9, 8, 5, 8, 12, 11, 7, 0],
                           [0, 0, 0, 0, 0, 0, 4, 8, 10], 9, 22)
  const S3_MODE0 := Inputs([160, 132, 142, 232, 238, 210, 242, 248, 254], [7, 13, 10, 5, 12, 8, 5, 9, 0],
                           [0, 0, 0, 0, 0, 0, 4, 4, 8], 9, 25)
  const C3_MODE1 := Inputs([160, 132, 142, 232, 238, 210, 242, 248, 254], [6, 12, 10, 13, 12, 9, 4, 4, 0],
                           [3, 2, 1, 0, 8, 8, 14, 13, 12], 9, 22)
  const C3_MODE0 := Inputs([160, 132, 142, 232, 238, 210, 242, 248, 254], [9, 12, 11, 8, 9, 12, 4, 4, 0],
                           [0, 2, 1, 3, 6, 3, 12, 11, 10], 9, 22)

  // Using fewer inputs keeps a table readable.
  lemma FewerInputs(t: Inputs, count: nat)
    requires t.Valid() && Readable(t) && count <= t.count
    ensures var fewer := t.(count := count); fewer.Valid() && Readable(fewer)
  {
  }

  ghost predicate GoodCodes(codes: seq<Byte>) {
    && |codes| == 9 && (forall j :: 0 <= j < 9 ==> codes[j] % 2 == 0)
    && forall j :: 0 <= j < 8 ==> codes[j] != codes[j + 1]
  }

  ghost predicate GoodSteps(steps: seq<Byte>) {
    |steps| == 9 && forall j :: 0 <= j < 8 ==> steps[j] != 0
  }

  ghost predicate GoodStarts(starts: seq<Byte>) {
    |starts| == 9 && forall j :: 0 <= j < 9 ==> starts[j] < 30
  }

  lemma FactoryCodesS3()
    ensures GoodCodes(S3_MODE1.codes)
  {
  }

  lemma FactoryCodes()
    ensures GoodCodes(S3_MODE0.codes) && S3_MODE0.codes == C3_MODE0.codes == C3_MODE1.codes
  {
  }

  lemma FactorySteps()
    ensures GoodSteps(S3_MODE0.steps) && GoodSteps(S3_MODE1.steps)
    ensures GoodSteps(C3_MODE0.steps) && GoodSteps(C3_MODE1.steps)
  {
  }

  lemma FactoryStarts()
    ensures GoodStarts(S3_MODE0.starts) && GoodStarts(S3_MODE1.starts)
    ensures GoodStarts(C3_MODE0.starts) && GoodStarts(C3_MODE1.starts)
  {
  }

  lemma GoodTable(t: Inputs)
    requires GoodCodes(t.codes) && GoodSteps(t.steps) && GoodStarts(t.starts) && t.count == 9 && t.max < 29
    ensures t.Valid() && Readable(t)
  {
  }

  /** All of them can be read back, also where only the first inputs are used. */
  lemma FactoryTables(t: Inputs, count: nat)
    requires t == S3_MODE0 || t == S3_MODE1 || t == C3_MODE0 || t == C3_MODE1
    requires count <= 9
    ensures var used := t.(count := count); used.Valid() && Readable(used)
  {
    hide Readable;
    hide GoodCodes, GoodSteps, GoodStarts;
    FactoryCodesS3();
    FactoryCodes();
    FactorySteps();
    FactoryStarts();
    GoodTable(t);
    FewerInputs(t, count);
  }
}
