/**
 Looking up transmit gains in a table of thresholds: a linear scan on the ESP32-C3, on the ESP32-S3
 a walk from the entry found last.
 */
module TxGain {
  import opened Bits
  import opened Machine

  ghost predicate Descending(t: seq<int>) {
    forall i, j :: 0 <= i < j < |t| ==> t[j] <= t[i]
  }

  // The first threshold from `i` on that the request reaches, or else the last one.
  function First(t: seq<int>, request: int, i: nat): (index: nat)
    requires 0 < |t| && i <= |t|
    ensures index < |t|
    decreases |t| - i
  {
    if i == |t| then |t| - 1
    else if t[i] <= request then i
    else First(t, request, i + 1)
  }

  // The walk from `index`, for at most `left` turns.
  function Walk(t: seq<int>, request: int, index: nat, left: nat): (r: nat)
    requires index < |t|
    ensures r < |t|
    decreases left
  {
    if left == 0 then index
    else if t[index] <= request then
      if index == 0 || request < t[index - 1] then index else Walk(t, request, index - 1, left - 1)
    else
      if index == |t| - 1 then index
      else if t[index + 1] <= request then index + 1
      else Walk(t, request, index + 1, left - 1)
  }

  // No threshold before `index` is reached, and the one there is, or it is the last.
  ghost predicate IsFirst(t: seq<int>, request: int, index: nat) {
    && index < |t|
    && (t[index] <= request || index == |t| - 1)
    && forall j :: 0 <= j < index ==> request < t[j]
  }

  lemma {:induction false} FirstIsFirst(t: seq<int>, request: int, i: nat)
    requires 0 < |t| && i <= |t| && forall j :: 0 <= j < i ==> request < t[j]
    ensures IsFirst(t, request, First(t, request, i))
    decreases |t| - i
  {
    if i < |t| && request < t[i] {
      FirstIsFirst(t, request, i + 1);
    }
  }

  lemma IsFirstIsUnique(t: seq<int>, request: int, a: nat, b: nat)
    requires IsFirst(t, request, a) && IsFirst(t, request, b)
    ensures a == b
  {
  }

  // In a descending table the walk down arrives, if its budget reaches to the first entry.
  lemma {:induction false} WalkDown(t: seq<int>, request: int, index: nat, left: nat)
    requires Descending(t) && index < |t| && t[index] <= request && index < left
    ensures IsFirst(t, request, Walk(t, request, index, left))
    decreases left
  {
    if index != 0 && t[index - 1] <= request {
      WalkDown(t, request, index - 1, left - 1);
    }
  }

  // And the walk up, if it reaches to the last one.
  lemma {:induction false} WalkUp(t: seq<int>, request: int, index: nat, left: nat)
    requires Descending(t) && index < |t| && request < t[index] && |t| - index <= left
    ensures IsFirst(t, request, Walk(t, request, index, left))
    decreases left
  {
    if index < |t| - 1 && request < t[index + 1] {
      WalkUp(t, request, index + 1, left - 1);
    }
  }

  // Below an unreached threshold the walk never turns back.
  lemma {:induction false} WalkNeverTurns(t: seq<int>, request: int, index: nat, left: nat)
    requires index < |t| && request < t[index]
    ensures index <= Walk(t, request, index, left)
    decreases left
  {
    if 0 < left && index < |t| - 1 && request < t[index + 1] {
      WalkNeverTurns(t, request, index + 1, left - 1);
    }
  }

  // The walk finds what the scan finds, whatever is requested and wherever it starts.
  ghost predicate HintIrrelevant(t: seq<int>)
    requires 0 < |t|
  {
    forall request: int, hint: nat {:trigger Walk(t, request, hint, |t|)} :: hint < |t| ==>
      Walk(t, request, hint, |t|) == First(t, request, 0)
  }

  lemma WalkIsFirst(t: seq<int>, request: int, hint: nat)
    requires Descending(t) && hint < |t|
    ensures Walk(t, request, hint, |t|) == First(t, request, 0)
  {
    if t[hint] <= request {
      WalkDown(t, request, hint, |t|);
    } else {
      WalkUp(t, request, hint, |t|);
    }
    FirstIsFirst(t, request, 0);
    IsFirstIsUnique(t, request, Walk(t, request, hint, |t|), First(t, request, 0));
  }

  lemma {:induction false} NotDescending(t: seq<int>, i: nat, j: nat) returns (k: nat)
    requires i < j < |t| && t[i] < t[j]
    ensures k + 1 < |t| && t[k] < t[k + 1]
    decreases j - i
  {
    if t[i] < t[i + 1] {
      k := i;
    } else {
      k := NotDescending(t, i + 1, j);
    }
  }

  /** The walk can replace the scan just when the table is descending. */
  lemma HintIrrelevantIff(t: seq<int>)
    requires 0 < |t|
    ensures HintIrrelevant(t) <==> Descending(t)
  {
    if Descending(t) {
      forall request: int, hint: nat {:trigger Walk(t, request, hint, |t|)} | hint < |t|
        ensures Walk(t, request, hint, |t|) == First(t, request, 0)
      {
        WalkIsFirst(t, request, hint);
      }
    } else {
      var i, j :| 0 <= i < j < |t| && t[i] < t[j];
      var k := NotDescending(t, i, j);
      WalkNeverTurns(t, t[k], k + 1, |t|);
      FirstIsFirst(t, t[k], 0);
      assert First(t, t[k], 0) <= k;
      assert Walk(t, t[k], k + 1, |t|) != First(t, t[k], 0);
    }
  }

  // The entry of a table, and what the request exceeds its threshold by.
  datatype Entry = Entry(code: nat, value: nat, difference: int)

  datatype Table = Table(thresholds: seq<int>, codes: seq<nat>, values: seq<nat>) {
    ghost predicate Valid() {
      0 < |thresholds| < 256 && |codes| == |values| == |thresholds|
    }

    function Get(request: int, index: nat): (e: Entry)
      requires index < |thresholds| == |codes| == |values|
    {
      Entry(codes[index], values[index], Short(request - thresholds[index]))
    }
  }

  /** The ESP32-C3 form. */
  method LookupC3(table: Table, request: int) returns (e: Entry)
    requires table.Valid()
    ensures e == table.Get(request, First(table.thresholds, request, 0))
    ensures Near(table, request) ==> exists index: nat ::
      IsFirst(table.thresholds, request, index) && IsEntry(table, request, index, e)
  {
    var count := |table.thresholds|;
    var i := 0;
    while i < count && request < table.thresholds[i]
      invariant 0 <= i <= count
      invariant First(table.thresholds, request, 0) == First(table.thresholds, request, i)
    {
      i := i + 1;
    }
    e := table.Get(request, if i == count then count - 1 else i);
    FirstIsFirst(table.thresholds, request, 0);
    if Near(table, request) {
      GetIsEntry(table, request, First(table.thresholds, request, 0));
    }
  }

  // Requests and thresholds are within 14 bits of each other, so that nothing wraps around.
  ghost predicate Near(table: Table, request: int) {
    forall i :: 0 <= i < |table.thresholds| ==> -0x4000 <= request - table.thresholds[i] < 0x4000
  }

  ghost predicate IsEntry(table: Table, request: int, index: nat, e: Entry) {
    && index < |table.thresholds| == |table.codes| == |table.values|
    && e.code == table.codes[index] && e.value == table.values[index]
    && e.difference == request - table.thresholds[index]
  }

  lemma GetIsEntry(table: Table, request: int, index: nat)
    requires Near(table, request) && index < |table.thresholds| == |table.codes| == |table.values|
    ensures IsEntry(table, request, index, table.Get(request, index))
  {
    ShortIsExact(request - table.thresholds[index]);
  }

  // The first threshold that is reached, or the one in front of it if the request exceeds that by more
  // than the limit allows.
  ghost predicate Chooses(t: seq<int>, request: int, adjustment: int, limit: int, index: nat) {
    exists first: nat :: IsFirst(t, request, first) &&
      index == if first != 0 && limit < request - t[first] + adjustment then first - 1 else first
  }

  // Step back by one entry if too much is left over.
  function Adjust(t: seq<int>, request: int, adjustment: int, limit: int, index: nat): (r: nat)
    requires index < |t|
    ensures r <= index
  {
    if limit < Short(request - t[index]) + adjustment && index != 0 then index - 1 else index
  }

  /** The ESP32-S3 form. The returned index is the hint for the next request. */
  method LookupS3(table: Table, hint: nat, adjustment: int, request: int, limit: int) returns (e: Entry, index: nat)
    requires table.Valid() && hint < |table.thresholds|
    ensures index == Adjust(table.thresholds, request, adjustment, limit,
                            Walk(table.thresholds, request, hint, |table.thresholds|))
    ensures e == table.Get(request, index)
    ensures Descending(table.thresholds) && Near(table, request) ==>
      && Chooses(table.thresholds, request, adjustment, limit, index) && IsEntry(table, request, index, e)
      // Only the first entry can leave more than the limit.
      && (adjustment <= limit < e.difference + adjustment ==> index == 0)
  {
    var t, count := table.thresholds, |table.thresholds|;
    index := hint;
    var iterations := 0;
    while iterations != count
      invariant 0 <= iterations <= count && 0 <= index < count
      invariant Walk(t, request, hint, count) == Walk(t, request, index, count - iterations)
      decreases count - iterations
    {
      if t[index] <= request {
        if index == 0 {
          break;
        }
        if request < t[index - 1] {
          break;
        }
        index := index - 1;
      } else {
        if index == count - 1 {
          break;
        }
        var next := t[index + 1];
        index := index + 1;
        if next <= request {
          break;
        }
      }
      iterations := iterations + 1;
    }
    index := Adjust(t, request, adjustment, limit, index);
    e := table.Get(request, index);
    if Descending(t) && Near(table, request) {
      WalkIsFirst(t, request, hint);
      AdjustedIs(table, request, adjustment, limit);
    }
  }

  lemma AdjustedIs(table: Table, request: int, adjustment: int, limit: int)
    requires table.Valid() && Near(table, request)
    ensures var t := table.thresholds;
      var index := Adjust(t, request, adjustment, limit, First(t, request, 0));
      && Chooses(t, request, adjustment, limit, index) && IsEntry(table, request, index, table.Get(request, index))
      && (adjustment <= limit < request - t[index] + adjustment ==> index == 0)
  {
    hide Short;
    var first := First(table.thresholds, request, 0);
    FirstIsFirst(table.thresholds, request, 0);
    ShortIsExact(request - table.thresholds[first]);
    GetIsEntry(table, request, Adjust(table.thresholds, request, adjustment, limit, first));
  }

  // What a Wi-Fi power level gets: code, value, and the gain as a byte.
  datatype WifiGain = WifiGain(code: nat, value: nat, gain: Byte)

  // Without any hint. A positive gain is handed to the digital gain check.
  function WifiEntry(table: Table, request: int, power: int, check: (nat, int) -> (nat, int)): (g: WifiGain)
    requires 0 < |table.thresholds| == |table.codes| == |table.values|
  {
    var t := table.thresholds;
    var e := table.Get(request, Adjust(t, request, -power, 0, First(t, request, 0)));
    var gain := Short(e.difference - power);
    var (value, gain') := if 0 < gain then check(e.value, gain) else (e.value, gain);
    WifiGain(e.code, value, gain' % 256)
  }

  // What a Wi-Fi entry means. With a power that is not negative, only the first entry of the table gets
  // to the digital gain check.
  ghost predicate WifiRight(table: Table, request: int, power: int, check: (nat, int) -> (nat, int), g: WifiGain)
    requires table.Valid()
  {
    exists index: nat :: Chooses(table.thresholds, request, -power, 0, index) && index < |table.thresholds| &&
      var gain := request - table.thresholds[index] - power;
      && g.code == table.codes[index]
      && (if 0 < gain then var (value, checked) := check(table.values[index], gain); g.value == value && g.gain == checked % 256
          else g.value == table.values[index] && g.gain == gain % 256)
      && (0 <= power && 0 < gain ==> index == 0)
  }

  lemma WifiEntryIsRight(table: Table, request: int, power: int, check: (nat, int) -> (nat, int))
    requires table.Valid() && Near(table, request) && -128 <= power < 128
    ensures WifiRight(table, request, power, check, WifiEntry(table, request, power, check))
  {
    hide First, Adjust, Chooses, Short;
    var t := table.thresholds;
    var index := Adjust(t, request, -power, 0, First(t, request, 0));
    AdjustedIs(table, request, -power, 0);
    ShortIsExact(request - t[index] - power);
  }

  /** With a descending table no entry depends on the hints the earlier ones leave. */
  method WifiGet(table: Table, inputs: seq<int>, reference: int, offset: int, power: int,
                 check: (nat, int) -> (nat, int)) returns (gains: array<WifiGain>)
    requires table.Valid() && Descending(table.thresholds) && |inputs| == 14
    ensures gains.Length == 14 && fresh(gains)
    ensures forall i :: 0 <= i < 14 ==> gains[i] == WifiEntry(table, inputs[i] - reference + offset, power, check)
    ensures forall i :: 0 <= i < 14 && -128 <= power < 128 && Near(table, inputs[i] - reference + offset) ==>
      WifiRight(table, inputs[i] - reference + offset, power, check, gains[i])
  {
    hide First, Walk, Adjust, Short, Chooses, IsEntry, Near, WifiRight;
    gains := new WifiGain[14](_ => WifiGain(0, 0, 0));
    var index := 0;
    for i := 0 to 14
      invariant 0 <= index < |table.thresholds|
      invariant forall k :: 0 <= k < i ==> gains[k] == WifiEntry(table, inputs[k] - reference + offset, power, check)
    {
      var request := inputs[i] - reference + offset;
      var e;
      WalkIsFirst(table.thresholds, request, index);
      e, index := LookupS3(table, index, -power, request, 0);
      var value, gain := e.value, Short(e.difference - power);
      if 0 < gain {
        var checked := check(value, gain);
        value, gain := checked.0, checked.1;
      }
      gains[i] := WifiGain(e.code, value, gain % 256);
    }
    forall i | 0 <= i < 14 && -128 <= power < 128 && Near(table, inputs[i] - reference + offset)
      ensures WifiRight(table, inputs[i] - reference + offset, power, check, gains[i])
    {
      WifiEntryIsRight(table, inputs[i] - reference + offset, power, check);
    }
  }

  function BtPower(level: int): (p: int) {
    if Short(level) < -96 then -96 else if 80 < Short(level) then 80 else Short(level)
  }

  // What the `i`-th Bluetooth power level gets: its code, and the gain as a byte.
  function BtEntry(table: Table, delta: int, input: int, level: int): (g: (nat, Byte))
    requires 0 < |table.thresholds| == |table.codes| == |table.values|
  {
    var t := table.thresholds;
    var request := Short(delta + BtPower(level));
    var e := table.Get(request, Adjust(t, request, Short(-input), -8, First(t, request, 0)));
    var gain := Short(e.difference - input);
    (e.code, (if gain < -64 then -64 else gain) % 256)
  }

  // What a Bluetooth entry means, at the level `power` between -96 and 80. With an input of 8 or more,
  // only the first entry of the table leaves a gain above -8.
  ghost predicate BtRight(table: Table, delta: int, input: int, level: int, g: (nat, Byte))
    requires table.Valid()
  {
    exists index: nat, power :: Clamps(level, power) && Chooses(table.thresholds, delta + power, -input, -8, index) &&
      index < |table.thresholds| &&
      var gain := delta + power - table.thresholds[index] - input;
      && g.0 == table.codes[index]
      && (if gain < -64 then g.1 == 192 else g.1 == gain % 256)
      && (8 <= input && -8 < gain ==> index == 0)
  }

  ghost predicate Clamps(level: int, power: int) {
    var x := Short(level);
    -96 <= power <= 80 && (-96 <= x <= 80 ==> power == x) && (x < -96 ==> power == -96) && (80 < x ==> power == 80)
  }

  ghost predicate BtInRange(table: Table, delta: int, input: int) {
    -256 < delta < 256 && -128 <= input < 128 && Near(table, delta - 96) && Near(table, delta + 80)
  }

  lemma BtEntryIsRight(table: Table, delta: int, input: int, level: int)
    requires table.Valid() && BtInRange(table, delta, input)
    ensures BtRight(table, delta, input, level, BtEntry(table, delta, input, level))
  {
    hide First, Adjust, Chooses, Short;
    var t, power := table.thresholds, BtPower(level);
    var request := delta + power;
    assert Near(table, request);
    ShortIsExact(request);
    ShortIsExact(-input);
    var index := Adjust(t, request, -input, -8, First(t, request, 0));
    AdjustedIs(table, request, -input, -8);
    ShortIsExact(request - t[index] - input);
    assert Clamps(level, power);
  }

  method BtLevel(table: Table, delta: int, input: int, level: int, hint: nat) returns (g: (nat, Byte), index: nat)
    requires table.Valid() && Descending(table.thresholds) && hint < |table.thresholds|
    ensures g == BtEntry(table, delta, input, level) && index < |table.thresholds|
  {
    hide First, Walk, Adjust, BtPower, Chooses, IsEntry, Near, Short;
    var request := Short(delta + BtPower(level));
    var e;
    WalkIsFirst(table.thresholds, request, hint);
    e, index := LookupS3(table, hint, Short(-input), request, -8);
    var gain := Short(e.difference - input);
    g := (e.code, (if gain < -64 then -64 else gain) % 256);
  }

  method BtGet(table: Table, delta: int, input: int, start: int, step: int) returns (gains: array<(nat, Byte)>)
    requires table.Valid() && Descending(table.thresholds)
    ensures gains.Length == 16 && fresh(gains)
    ensures forall i :: 0 <= i < 16 ==> gains[i] == BtEntry(table, delta, input, start + i * step)
    ensures BtInRange(table, delta, input) ==>
      forall i :: 0 <= i < 16 ==> BtRight(table, delta, input, start + i * step, gains[i])
  {
    hide First, Walk, Adjust, BtPower, Chooses, IsEntry, Near, BtRight, BtEntry, BtInRange, Short;
    gains := new (nat, Byte)[16](_ => (0, 0));
    var level, index := start, 0;
    for i := 0 to 16
      invariant 0 <= index < |table.thresholds| && level == start + i * step
      invariant forall k :: 0 <= k < i ==> gains[k] == BtEntry(table, delta, input, start + k * step)
    {
      gains[i], index := BtLevel(table, delta, input, level, index);
      level := level + step;
    }
    if BtInRange(table, delta, input) {
      forall level
        ensures BtRight(table, delta, input, level, BtEntry(table, delta, input, level))
      {
        BtEntryIsRight(table, delta, input, level);
      }
    }
  }

  // The factory thresholds.
  const C3_THRESHOLDS: seq<int> :=
    [32, 24, 16, 12, 6, 0, -7, -16, -30, -41, -53, -63, -78, -87, -99, -110, -124, -148]
  const S3_THRESHOLDS: seq<int> :=
    [48, 40, 32, 24, 16, 12, 6, 0, -7, -16, -30, -53, -63, -78, -99, -110, -124, -148]
  const S3_ALTERNATE: seq<int> :=
    [40, 32, 24, 16, 12, 6, 0, -10, -24, -31, -40, -47, -55, -64, -79, -88, -103, -112]

  function FactoryS3(alternate: bool): (t: seq<int>)
    ensures |t| == 18
  {
    if alternate then S3_ALTERNATE else S3_THRESHOLDS
  }

  /** Copy the thresholds, then subtract the one at the reference index from all. */
  method CalibrateS3(alternate: bool, p: array<int>)
    requires p.Length == 18
    modifies p
    ensures Descending(p[..]) && p[if alternate then 6 else 8] == 0
    ensures forall i :: 0 <= i < 18 ==> p[i] == FactoryS3(alternate)[i] - FactoryS3(alternate)[if alternate then 6 else 8]
  {
    hide FactoryS3, Short;
    FactoryIsDescending(alternate);
    var source := FactoryS3(alternate);
    for i := 0 to 18
      invariant forall k :: 0 <= k < i ==> p[k] == source[k]
    {
      p[i] := source[i];
    }
    var reference := p[if alternate then 6 else 8];
    for i := 0 to 18
      invariant forall k :: 0 <= k < 18 ==> p[k] == if k < i then source[k] - reference else source[k]
    {
      ShortIsExact(p[i] - reference);
      p[i] := Short(p[i] - reference);
    }
  }

  lemma FactoryIsDescending(alternate: bool)
    ensures Descending(FactoryS3(alternate)) && forall i :: 0 <= i < 18 ==> -200 <= FactoryS3(alternate)[i] <= 200
  {
  }

  // The ESP32-C3 takes the reference from the table it is filling, so that the entries in front of
  // it are moved by what was there before.
  function CalibratedC3(before: int): (t: seq<int>)
    ensures |t| == 18
  {
    seq(18, i requires 0 <= i < 18 =>
      if i < 5 then Short(C3_THRESHOLDS[i] - before) else if i == 5 then 0 else C3_THRESHOLDS[i])
  }

  method CalibrateC3(p: array<int>)
    requires p.Length == 18
    modifies p
    ensures p[..] == CalibratedC3(old(p[5]))
  {
    for i := 0 to 18
      invariant forall k :: 0 <= k < i ==> p[k] == CalibratedC3(old(p[5]))[k]
      invariant i <= 5 ==> p[5] == old(p[5])
      invariant 5 < i ==> p[5] == 0
    {
      p[i] := C3_THRESHOLDS[i];
      var reference := p[5];
      p[i] := Short(C3_THRESHOLDS[i] - reference);
    }
  }

  /** The calibrated table is descending just when the old reference was small; it is 0 ever after. */
  lemma CalibratedC3Iff(before: int)
    requires -0x8000 <= before < 0x8000
    ensures Descending(CalibratedC3(before)) <==> -32735 <= before <= 6
  {
    var t := CalibratedC3(before);
    if -32735 <= before <= 6 {
      assert forall i :: 0 <= i < 5 ==> t[i] == C3_THRESHOLDS[i] - before;
    } else if 6 < before {
      assert t[4] == 6 - before < 0 == t[5];
    } else {
      assert t[0] == 32 - before - 0x1_0000 < 0 == t[5];
    }
  }
}
