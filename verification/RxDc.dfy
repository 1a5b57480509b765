/**
 Filling the gaps in the receive DC table: a channel whose estimate is not good takes over the value
 of the nearest channel that is better, in place.
 */
module RxDc {
  import opened Bits
  import opened Machine

  const CHANNELS: nat := 14

  function Columns(chip: Chip): (n: nat) {
    if chip == S3 then 1 else 3
  }

  // Masking by 0xffff01ff.
  function Mask(value: nat): (r: nat) {
    value / 0x1_0000 * 0x1_0000 + value % 512
  }

  lemma MaskIdempotent(value: nat)
    ensures Mask(Mask(value)) == Mask(value)
  {
    var high, low := value / 0x1_0000, value % 512;
    DivMod(0x1_0000, high, low);
    assert Mask(value) == 0x1_0000 * high + low == 512 * (128 * high) + low;
    DivMod(512, 128 * high, low);
  }

  function Distance(a: int, b: int): (d: nat)
    ensures d == a - b || d == b - a
  {
    if a < b then b - a else a - b
  }

  // Where a channel's entry of a column is.
  function At(columns: nat, column: nat, channel: nat): (i: nat) {
    channel * columns + column
  }

  lemma AtIsUnique(columns: nat, column: nat)
    requires column < columns <= 3
    ensures forall c {:trigger At(columns, column, c)} :: 0 <= c < CHANNELS ==>
      At(columns, column, c) < CHANNELS * columns && At(columns, column, c) % columns == column
    ensures forall c, d :: 0 <= c < d < CHANNELS ==> At(columns, column, c) != At(columns, column, d)
  {
  }

  // One column of a table that has `columns` entries for each channel.
  function Column(table: seq<nat>, columns: nat, column: nat): (r: seq<nat>)
    requires column < columns <= 3 && |table| == CHANNELS * columns
    ensures |r| == CHANNELS && forall c :: 0 <= c < CHANNELS ==>
      At(columns, column, c) < |table| && r[c] == table[At(columns, column, c)]
  {
    AtIsUnique(columns, column);
    seq(CHANNELS, c requires 0 <= c < CHANNELS => AtIsUnique(columns, column); table[At(columns, column, c)])
  }

  // The best of the first `n` candidates for a channel: the nearest one with the preferred status,
  // the first one of these. Without any, the channel itself.
  function Best(status: seq<nat>, preference: nat, channel: nat, n: nat): (c: nat)
    requires |status| == CHANNELS && channel < CHANNELS && n <= CHANNELS
    ensures c < CHANNELS
    ensures status[c] == preference || c == channel
  {
    if n == 0 then channel else
    var c := Best(status, preference, channel, n - 1);
    if status[n - 1] == preference && Distance(channel, n - 1) < Reach(status, preference, channel, n - 1) then n - 1 else c
  }

  // The distance that has to be beaten.
  function Reach(status: seq<nat>, preference: nat, channel: nat, n: nat): (d: nat)
    requires |status| == CHANNELS && channel < CHANNELS && n <= CHANNELS
  {
    if n == 0 then 20 else
    var d := Reach(status, preference, channel, n - 1);
    if status[n - 1] == preference && Distance(channel, n - 1) < d then Distance(channel, n - 1) else d
  }

  // `c` is the nearest channel with the preferred status, the lower one of two.
  ghost predicate IsNearest(status: seq<nat>, preference: nat, channel: nat, c: nat, n: nat)
    requires n <= |status|
  {
    && c < n && status[c] == preference
    && forall d :: 0 <= d < n && status[d] == preference ==>
         Distance(channel, c) < Distance(channel, d) || (Distance(channel, c) == Distance(channel, d) && c <= d)
  }

  /** The search finds the nearest channel with the preferred status if there is any. */
  lemma {:induction false} BestIsNearest(status: seq<nat>, preference: nat, channel: nat, n: nat)
    requires |status| == CHANNELS && channel < CHANNELS && n <= CHANNELS
    ensures BestSoFar(status, preference, channel, n, Best(status, preference, channel, n),
                      Reach(status, preference, channel, n))
    decreases n
  {
    if n != 0 {
      BestIsNearest(status, preference, channel, n - 1);
      BestStep(status, preference, channel, n);
    }
  }

  // The best of `n` candidates, and the distance to it.
  ghost predicate BestSoFar(status: seq<nat>, preference: nat, channel: nat, n: nat, c: nat, reach: nat)
    requires n <= |status|
  {
    if exists d :: 0 <= d < n && status[d] == preference
    then IsNearest(status, preference, channel, c, n) && reach == Distance(channel, c)
    else c == channel && reach == 20
  }

  lemma BestUnfold(status: seq<nat>, preference: nat, channel: nat, n: nat)
    requires |status| == CHANNELS && channel < CHANNELS && 0 < n <= CHANNELS
    ensures var better := status[n - 1] == preference && Distance(channel, n - 1) < Reach(status, preference, channel, n - 1);
      && Best(status, preference, channel, n) == (if better then n - 1 else Best(status, preference, channel, n - 1))
      && Reach(status, preference, channel, n) ==
         if better then Distance(channel, n - 1) else Reach(status, preference, channel, n - 1)
  {
    hide Distance;
  }

  lemma BestStep(status: seq<nat>, preference: nat, channel: nat, n: nat)
    requires |status| == CHANNELS && channel < CHANNELS && 0 < n <= CHANNELS
    requires BestSoFar(status, preference, channel, n - 1, Best(status, preference, channel, n - 1),
                       Reach(status, preference, channel, n - 1))
    ensures BestSoFar(status, preference, channel, n, Best(status, preference, channel, n),
                      Reach(status, preference, channel, n))
  {
    hide Distance, Best, Reach;
    DistanceBound(channel, n - 1);
    BestUnfold(status, preference, channel, n);
    if status[n - 1] == preference {
      assert exists d :: 0 <= d < n && status[d] == preference;
    } else {
      assert forall d :: 0 <= d < n && status[d] == preference ==> d < n - 1;
    }
  }

  lemma DistanceBound(a: nat, b: nat)
    requires a < CHANNELS && b < CHANNELS
    ensures Distance(a, b) < 20
  {
  }

  // The status to copy from: 1 where a channel has it, else 2; later columns never fall back.
  function Preference(status: seq<nat>, column: nat): (p: nat) {
    if column == 0 && 1 !in status then 2 else 1
  }

  // What a channel ends up with, from the original values.
  function Fill(data: seq<nat>, status: seq<nat>, preference: nat, channel: nat): (value: nat)
    requires |data| == |status| == CHANNELS && channel < CHANNELS
  {
    if status[channel] == 1 then data[channel]
    else Mask(data[Best(status, preference, channel, CHANNELS)])
  }

  // Reading a source which may itself have been overwritten yields the original value.
  lemma SourceIsOriginal(data: seq<nat>, status: seq<nat>, preference: nat, channel: nat, current: nat)
    requires |data| == |status| == CHANNELS && channel < CHANNELS && (preference == 1 || preference == 2)
    requires status[channel] != 1
    requires var c := Best(status, preference, channel, CHANNELS);
      current == if c < channel then Fill(data, status, preference, c) else data[c]
    ensures Mask(current) == Fill(data, status, preference, channel)
  {
    var c := Best(status, preference, channel, CHANNELS);
    if c < channel && status[c] != 1 {
      BestIsNearest(status, preference, c, CHANNELS);
      assert Distance(c, c) == 0;
      MaskIdempotent(data[c]);
    }
  }

  method Select(status: seq<nat>, preference: nat, channel: nat) returns (selected: nat)
    requires |status| == CHANNELS && channel < CHANNELS
    ensures selected == Best(status, preference, channel, CHANNELS)
  {
    var distance;
    selected, distance := channel, 20;
    for candidate := 0 to CHANNELS
      invariant selected == Best(status, preference, channel, candidate)
      invariant distance == Reach(status, preference, channel, candidate)
    {
      if status[candidate] != preference {
        continue;
      }
      var value := Distance(channel, candidate);
      if value < distance {
        selected, distance := candidate, value;
      }
    }
  }

  // The entry of a channel in a column of a table with `columns` columns.
  ghost function EntryOf(table: seq<nat>, columns: nat, column: nat, channel: nat): (entry: nat)
    requires column < columns <= 3 && channel < 14 && |table| == 14 * columns
  {
    assert channel * columns + column < 14 * columns by {
      MulLess(columns, channel, 14);
    }
    table[channel * columns + column]
  }

  // A value without its bits 9 to 15.
  ghost predicate IsMasked(was: nat, value: nat) {
    value == was / 0x1_0000 * 0x1_0000 + was % 512
  }

  // `n` is the channel nearest to `c` that has the wanted status, the lower one of two.
  ghost predicate Nearest(status: seq<nat>, columns: nat, column: nat, wanted: nat, c: nat, n: nat)
    requires column < columns <= 3 && |status| == 14 * columns
  {
    && n < 14 && EntryOf(status, columns, column, n) == wanted
    && forall d :: 0 <= d < 14 && EntryOf(status, columns, column, d) == wanted ==>
         Distance(c, n) < Distance(c, d) || (Distance(c, n) == Distance(c, d) && n <= d)
  }

  ghost predicate Has(status: seq<nat>, columns: nat, column: nat, wanted: nat)
    requires column < columns <= 3 && |status| == 14 * columns
  {
    exists d :: 0 <= d < 14 && EntryOf(status, columns, column, d) == wanted
  }

  // What `now` has to be for channel `c` of a column.
  ghost predicate IsRight(was: seq<nat>, status: seq<nat>, columns: nat, column: nat, c: nat, now: nat)
    requires column < columns <= 3 && c < 14 && |was| == |status| == 14 * columns
  {
    if EntryOf(status, columns, column, c) == 1 then now == EntryOf(was, columns, column, c)
    else if Has(status, columns, column, 1) then
      exists n :: Nearest(status, columns, column, 1, c, n) && IsMasked(EntryOf(was, columns, column, n), now)
    else if column == 0 && Has(status, columns, column, 2) then
      exists n :: Nearest(status, columns, column, 2, c, n) && IsMasked(EntryOf(was, columns, column, n), now)
    else IsMasked(EntryOf(was, columns, column, c), now)
  }

  // An entry of a column.
  lemma ColumnIs(table: seq<nat>, columns: nat, column: nat)
    requires column < columns <= 3 && |table| == CHANNELS * columns
    ensures forall c :: 0 <= c < 14 ==> Column(table, columns, column)[c] == EntryOf(table, columns, column, c)
  {
  }

  lemma FilledIsRight(was: seq<nat>, status: seq<nat>, columns: nat, column: nat, now: seq<nat>, c: nat)
    requires column < columns <= 3 && c < 14 && |was| == |status| == |now| == CHANNELS * columns
    requires var s := Column(status, columns, column);
      IsFilled(Column(was, columns, column), s, Preference(s, column), Column(now, columns, column))
    ensures IsRight(was, status, columns, column, c, EntryOf(now, columns, column, c))
  {
    hide Column, EntryOf, Best, Nearest, Has, IsFilled, Mask, IsMasked;
    var s := Column(status, columns, column);
    MaskIs(Column(was, columns, column)[Best(s, Preference(s, column), c, CHANNELS)]);
    ColumnIs(was, columns, column);
    ColumnIs(status, columns, column);
    ColumnIs(now, columns, column);
    FilledAt(Column(was, columns, column), s, Preference(s, column), Column(now, columns, column), c);
    HasIff(status, columns, column, 1);
    HasIff(status, columns, column, 2);
    BestIs(status, columns, column, 1, c);
    BestIs(status, columns, column, 2, c);
  }

  lemma MaskIs(value: nat)
    ensures IsMasked(value, Mask(value))
  {
  }

  lemma FilledAt(data: seq<nat>, status: seq<nat>, preference: nat, filled: seq<nat>, c: nat)
    requires |data| == |status| == |filled| == CHANNELS && c < CHANNELS && IsFilled(data, status, preference, filled)
    ensures filled[c] == Fill(data, status, preference, c)
  {
  }

  lemma BestIs(status: seq<nat>, columns: nat, column: nat, wanted: nat, c: nat)
    requires column < columns <= 3 && c < 14 && |status| == CHANNELS * columns
    ensures var s := Column(status, columns, column);
      var n := Best(s, wanted, c, CHANNELS);
      if wanted in s then Nearest(status, columns, column, wanted, c, n) else n == c
  {
    hide Column, EntryOf, Best, Distance;
    ColumnIs(status, columns, column);
    var s := Column(status, columns, column);
    BestIsNearest(s, wanted, c, CHANNELS);
    if wanted in s {
      var d :| 0 <= d < CHANNELS && s[d] == wanted;
      assert IsNearest(s, wanted, c, Best(s, wanted, c, CHANNELS), CHANNELS);
    }
  }

  lemma HasIff(status: seq<nat>, columns: nat, column: nat, wanted: nat)
    requires column < columns <= 3 && |status| == CHANNELS * columns
    ensures Has(status, columns, column, wanted) <==> wanted in Column(status, columns, column)
  {
    hide Column, EntryOf;
    ColumnIs(status, columns, column);
    if wanted in Column(status, columns, column) {
      var d :| 0 <= d < CHANNELS && Column(status, columns, column)[d] == wanted;
      assert EntryOf(status, columns, column, d) == wanted;
    }
  }

  /** Sort in place equals filling from the original values. */
  method Sort(chip: Chip, data: array<nat>, status: seq<nat>)
    requires |status| == data.Length == CHANNELS * Columns(chip)
    modifies data
    ensures var columns := if chip == S3 then 1 else 3;
      forall column, c :: 0 <= column < columns && 0 <= c < 14 ==>
        IsRight(old(data[..]), status, columns, column, c, EntryOf(data[..], columns, column, c))
    ensures forall column :: 0 <= column < Columns(chip) ==>
      var s := Column(status, Columns(chip), column);
      IsFilled(Column(old(data[..]), Columns(chip), column), s, Preference(s, column),
               Column(data[..], Columns(chip), column))
  {
    hide Column, IsFilled, Preference, IsRight, EntryOf;
    var columns := Columns(chip);
    ghost var original := data[..];
    var preference: nat := 0;
    for column := 0 to columns
      invariant column == 0 ==> preference == 0
      invariant column != 0 ==> preference == 1 || preference == 2
      invariant forall k :: 0 <= k < column ==>
        var s := Column(status, columns, k);
        IsFilled(Column(original, columns, k), s, Preference(s, k), Column(data[..], columns, k))
      invariant forall k :: column <= k < columns ==> Column(data[..], columns, k) == Column(original, columns, k)
    {
      var s := Column(status, columns, column);
      preference := CountGood(s, preference, column);
      ghost var before := data[..];
      SortColumn(data, s, columns, column, preference);
      forall k | 0 <= k < columns && k != column
        ensures Column(data[..], columns, k) == Column(before, columns, k)
      {
        OtherColumn(before, data[..], columns, column, k);
      }
    }
    forall column, c | 0 <= column < columns && 0 <= c < 14
      ensures IsRight(original, status, columns, column, c, EntryOf(data[..], columns, column, c))
    {
      FilledIsRight(original, status, columns, column, data[..], c);
    }
  }

  // `filled` is the column `data` with its gaps filled.
  ghost predicate IsFilled(data: seq<nat>, status: seq<nat>, preference: nat, filled: seq<nat>)
    requires |data| == |status| == |filled| == CHANNELS
  {
    forall c :: 0 <= c < CHANNELS ==> filled[c] == Fill(data, status, preference, c)
  }

  lemma OtherColumn(a: seq<nat>, b: seq<nat>, columns: nat, column: nat, k: nat)
    requires k < columns <= 3 && column < columns && k != column && |a| == |b| == CHANNELS * columns
    requires forall j :: 0 <= j < |a| && j % columns != column ==> a[j] == b[j]
    ensures Column(a, columns, k) == Column(b, columns, k)
  {
    AtIsUnique(columns, k);
  }

  // Count the good channels on top of what the previous column left, in 8 bits, and choose.
  method CountGood(status: seq<nat>, carried: nat, column: nat) returns (preference: nat)
    requires |status| == CHANNELS && (if column == 0 then carried == 0 else 1 <= carried <= 2)
    ensures preference == Preference(status, column) && 1 <= preference <= 2
    ensures preference == 2 <==> column == 0 && 1 !in status
  {
    var count := carried;
    for channel := 0 to CHANNELS
      invariant carried <= count <= carried + channel
      invariant count == carried <==> 1 !in status[..channel]
    {
      if status[channel] == 1 {
        count := (count + 1) % 256;
      }
    }
    assert status[..CHANNELS] == status;
    preference := if count == 0 then 2 else 1;
  }

  method SortColumn(data: array<nat>, status: seq<nat>, columns: nat, column: nat, preference: nat)
    requires |status| == CHANNELS && column < columns <= 3 && data.Length == CHANNELS * columns
    requires preference == 1 || preference == 2
    modifies data
    ensures IsFilled(Column(old(data[..]), columns, column), status, preference, Column(data[..], columns, column))
    ensures forall j :: 0 <= j < data.Length && j % columns != column ==> data[j] == old(data[j])
  {
    hide At, Fill, Mask;
    AtIsUnique(columns, column);
    ghost var original := Column(data[..], columns, column);
    for channel := 0 to CHANNELS
      invariant forall c :: 0 <= c < CHANNELS ==>
        data[At(columns, column, c)] == if c < channel then Fill(original, status, preference, c) else original[c]
      invariant forall j :: 0 <= j < data.Length && j % columns != column ==> data[j] == old(data[j])
    {
      if status[channel] == 1 {
        GoodIsKept(original, status, preference, channel);
        continue;
      }
      var selected := Select(status, preference, channel);
      var value := data[At(columns, column, selected)];
      SourceIsOriginal(original, status, preference, channel, value);
      data[At(columns, column, channel)] := Mask(value);
    }
  }

  lemma GoodIsKept(data: seq<nat>, status: seq<nat>, preference: nat, channel: nat)
    requires |data| == |status| == CHANNELS && channel < CHANNELS && status[channel] == 1
    ensures Fill(data, status, preference, channel) == data[channel]
  {
  }
}
