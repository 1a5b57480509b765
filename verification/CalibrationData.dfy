/**
 Saved calibration data: the PHY parameters behind a header of three words, version first, and
 followed by a checksum. All words are little-endian.
 */
module CalibrationData {
  import opened Bits
  import opened Machine

  const HEADER: nat := 12

  type Word = w: nat | w < U32 witness 0

  function ParamSize(chip: Chip): (n: nat)
    ensures n % 4 == 0
  {
    if chip == S3 then 740 else 848
  }

  function DataSize(chip: Chip): (n: nat) {
    HEADER + ParamSize(chip) + 4
  }

  function Le32(a: Byte, b: Byte, c: Byte, d: Byte): (w: nat)
    ensures w < U32
  {
    Le16(a, b) + 0x1_0000 * Le16(c, d)
  }

  // The word at a byte position.
  function WordAt(s: seq<Byte>, i: nat): (w: nat)
    requires i + 4 <= |s|
    ensures w < U32
  {
    Le32(s[i], s[i + 1], s[i + 2], s[i + 3])
  }

  // A byte of a word.
  function ByteOf(w: nat, i: nat): (b: Byte) {
    if i == 0 then w % 256 else ByteOf(w / 256, i - 1)
  }

  lemma ByteUnfold(w: nat)
    ensures ByteOf(w, 0) == w % 256 && ByteOf(w, 1) == ByteOf(w / 256, 0)
    ensures ByteOf(w, 2) == ByteOf(w / 256, 1) && ByteOf(w, 3) == ByteOf(w / 256, 2)
  {
  }

  lemma ByteUnfoldAll(w: nat)
    ensures ByteOf(w, 0) == w % 256 && ByteOf(w, 1) == w / 256 % 256
    ensures ByteOf(w, 2) == w / 256 / 256 % 256 && ByteOf(w, 3) == w / 256 / 256 / 256 % 256
  {
    hide ByteOf;
    ByteUnfold(w);
    ByteUnfold(w / 256);
    ByteUnfold(w / 256 / 256);
    ByteUnfold(w / 256 / 256 / 256);
  }

  lemma BytesOfWord(a: Byte, b: Byte, c: Byte, d: Byte)
    ensures var w := Le32(a, b, c, d);
      ByteOf(w, 0) == a && ByteOf(w, 1) == b && ByteOf(w, 2) == c && ByteOf(w, 3) == d
  {
    hide ByteOf;
    var y: nat := c + 256 * (d as nat);
    var x: nat := b + 256 * y;
    ByteUnfoldAll(a + 256 * x);
    assert Le32(a, b, c, d) == a + 256 * x;
    DivMod(256, x, a);
    DivMod(256, y, b);
    DivMod(256, d, c);
  }

  lemma WordOfBytes(w: nat)
    requires w < U32
    ensures Le32(ByteOf(w, 0), ByteOf(w, 1), ByteOf(w, 2), ByteOf(w, 3)) == w
  {
    hide ByteOf;
    ByteUnfoldAll(w);
    var q1 := w / 256;
    var q2 := q1 / 256;
    var q3 := q2 / 256;
    assert q3 < 256;
  }

  /** Save the parameters behind the header, byte by byte, or load them, word by word. */
  method Transfer(chip: Chip, param: array<Byte>, data: array<Byte>, save: nat)
    requires param != data && param.Length == ParamSize(chip) && data.Length == DataSize(chip)
    modifies param, data
    ensures if IsSet(chip, save)
      then param[..] == old(param[..]) && data[..] == old(data[..HEADER]) + param[..] + old(data[HEADER + param.Length..])
      else data[..] == old(data[..]) && param[..] == data[HEADER..HEADER + param.Length]
  {
    var n := ParamSize(chip);
    if IsSet(chip, save) {
      for k := 0 to n / 4
        invariant param[..] == old(param[..])
        invariant forall j :: 0 <= j < data.Length ==>
          data[j] == if HEADER <= j < HEADER + 4 * k then param[j - HEADER] else old(data[j])
      {
        SaveWord(param, data, 4 * k);
      }
    } else {
      for k := 0 to n / 4
        invariant data[..] == old(data[..])
        invariant forall j :: 0 <= j < 4 * k ==> param[j] == data[HEADER + j]
      {
        LoadWord(param, data, 4 * k);
      }
    }
  }

  method SaveWord(param: array<Byte>, data: array<Byte>, i: nat)
    requires param != data && i + 4 <= param.Length && HEADER + param.Length <= data.Length
    modifies data
    ensures forall j :: 0 <= j < data.Length ==>
      data[j] == if HEADER + i <= j < HEADER + i + 4 then param[j - HEADER] else old(data[j])
  {
    hide ByteOf, Le32;
    for shift := 0 to 4
      invariant forall j :: 0 <= j < data.Length ==>
        data[j] == if HEADER + i <= j < HEADER + i + shift then param[j - HEADER] else old(data[j])
    {
      // The word is read again for every byte.
      var v := Le32(param[i], param[i + 1], param[i + 2], param[i + 3]);
      BytesOfWord(param[i], param[i + 1], param[i + 2], param[i + 3]);
      data[HEADER + i + shift] := ByteOf(v, shift);
    }
  }

  method LoadWord(param: array<Byte>, data: array<Byte>, i: nat)
    requires param != data && i + 4 <= param.Length && HEADER + param.Length <= data.Length
    modifies param
    ensures forall j :: 0 <= j < param.Length ==>
      param[j] == if i <= j < i + 4 then data[HEADER + j] else old(param[j])
  {
    hide ByteOf, Le32;
    var d := HEADER + i;
    var v := Le32(data[d], data[d + 1], data[d + 2], data[d + 3]);
    BytesOfWord(data[d], data[d + 1], data[d + 2], data[d + 3]);
    WriteWord(param, i, v);
  }

  method WriteWord(a: array<Byte>, i: nat, v: nat)
    requires i + 4 <= a.Length
    modifies a
    ensures a[..] == old(a[..i]) + [ByteOf(v, 0), ByteOf(v, 1), ByteOf(v, 2), ByteOf(v, 3)] + old(a[i + 4..])
  {
    hide ByteOf;
    for k := 0 to 4
      invariant forall j :: 0 <= j < a.Length ==>
        a[j] == if i <= j < i + k then ByteOf(v, j - i) else old(a[j])
    {
      a[i + k] := ByteOf(v, k);
    }
  }

  /** Saving and loading restores every parameter. */
  method SaveThenLoad(chip: Chip, param: array<Byte>, data: array<Byte>, restored: array<Byte>)
    requires param != data && restored != data && param != restored
    requires param.Length == restored.Length == ParamSize(chip) && data.Length == DataSize(chip)
    modifies param, data, restored
    ensures restored[..] == param[..] == old(param[..]) == data[12..data.Length - 4]
    ensures data[..12] == old(data[..12]) && data[data.Length - 4..] == old(data[data.Length - 4..])
    ensures param.Length == if chip == S3 then 740 else 848
  {
    Transfer(chip, param, data, 1);
    Transfer(chip, restored, data, 0);
  }

  // How many bytes are recovered from offset 288 on.
  function RecoverySize(chip: Chip): (n: nat) {
    if chip == S3 then 236 else 244
  }

  method Recovery(chip: Chip, param: array<Byte>, data: array<Byte>)
    requires param != data && param.Length == ParamSize(chip) && data.Length == DataSize(chip)
    modifies param
    ensures forall j :: 0 <= j < param.Length ==>
      param[j] == if 218 <= j < 222 || 288 <= j < (if chip == S3 then 524 else 532) then data[12 + j] else old(param[j])
  {
    forall k | 0 <= k < RecoverySize(chip) {
      param[288 + k] := data[300 + k];
    }
    var first := Le16(data[230], data[231]);
    DivMod(256, data[231], data[230]);
    param[218], param[219] := first % 256, first / 256;
    var second := Le16(data[232], data[233]);
    DivMod(256, data[233], data[232]);
    param[220], param[221] := second % 256, second / 256;
  }

  /** What recovery takes from a backup is what was backed up, and it takes just the two ranges. */
  method BackupThenRecovery(chip: Chip, param: array<Byte>, data: array<Byte>, later: array<Byte>)
    requires param != data && later != data && param != later
    requires param.Length == later.Length == ParamSize(chip) && data.Length == DataSize(chip)
    modifies param, data, later
    ensures param[..] == old(param[..])
    ensures forall j :: 0 <= j < later.Length ==>
      later[j] == if 218 <= j < 222 || 288 <= j < (if chip == S3 then 524 else 532) then param[j] else old(later[j])
  {
    Transfer(chip, param, data, 1);
    assert forall j :: 0 <= j < param.Length ==> data[..][HEADER + j] == param[j];
    Recovery(chip, later, data);
  }

  // The data as words: version, two more header words, parameters, checksum.
  function Words(bytes: seq<Byte>): (ws: seq<nat>)
    ensures |ws| == |bytes| / 4 && forall k :: 0 <= k < |ws| ==> ws[k] == WordAt(bytes, 4 * k)
  {
    seq(|bytes| / 4, k requires 0 <= k < |bytes| / 4 => WordAt(bytes, 4 * k))
  }

  function Total(ws: seq<nat>): (sum: nat) {
    if ws == [] then 0 else Total(ws[..|ws| - 1]) + ws[|ws| - 1]
  }

  // The complement of the 32-bit sum of all words but the last.
  function Checksum(ws: seq<nat>): (c: nat)
    requires 0 < |ws|
    ensures c < U32
  {
    U32 - 1 - Total(ws[..|ws| - 1]) % U32
  }

  // Checking writes the version first, whatever was there.
  function Stamp(ws: seq<nat>, version: Word): (r: seq<nat>)
    requires 1 < |ws|
    ensures |r| == |ws|
  {
    ws[0 := version]
  }

  function Seal(ws: seq<nat>, version: Word): (r: seq<nat>)
    requires 1 < |ws|
    ensures |r| == |ws|
  {
    var stamped := Stamp(ws, version);
    stamped[|ws| - 1 := Checksum(stamped)]
  }

  predicate Verifies(ws: seq<nat>, version: Word)
    requires 1 < |ws|
  {
    Checksum(Stamp(ws, version)) == ws[|ws| - 1]
  }

  lemma {:induction false} TotalUpdate(ws: seq<nat>, k: nat, w: nat)
    requires k < |ws|
    ensures Total(ws[k := w]) + ws[k] == Total(ws) + w
    decreases |ws|
  {
    var last := |ws| - 1;
    if k == last {
      assert ws[k := w][..last] == ws[..last];
    } else {
      assert ws[k := w][..last] == ws[..last][k := w];
      TotalUpdate(ws[..last], k, w);
    }
  }

  // Replacing one word by a different one changes the checksum, and nothing else can compensate.
  lemma ChecksumDiffers(ws: seq<nat>, k: nat, w: nat)
    requires k < |ws| - 1 && ws[k] < U32 && w < U32
    ensures Checksum(ws[k := w]) == Checksum(ws) <==> w == ws[k]
  {
    var front := ws[..|ws| - 1];
    assert ws[k := w][..|ws| - 1] == front[k := w];
    TotalUpdate(front, k, w);
    SameResidue(Total(front[k := w]), Total(front), w, ws[k]);
  }

  lemma SameResidue(a: nat, b: nat, x: nat, y: nat)
    requires a + y == b + x && x < U32 && y < U32
    ensures a % U32 == b % U32 <==> x == y
  {
  }

  /** Sealed data verifies under a version just when that is the sealing one. */
  lemma VerifiesIffSameVersion(ws: seq<nat>, sealing: Word, checking: Word)
    requires 1 < |ws|
    ensures Verifies(Seal(ws, sealing), checking) <==> sealing == checking
  {
    var last := |ws| - 1;
    var sealed := Seal(ws, sealing);
    assert Checksum(sealed) == sealed[last] by {
      assert sealed[..last] == Stamp(ws, sealing)[..last];
    }
    ChecksumDiffers(sealed, 0, checking);
  }

  /** In data that verifies, any change of a single word is noticed, unless it is the version word. */
  lemma SingleChangeIsNoticed(ws: seq<nat>, version: Word, k: nat, w: nat)
    requires 1 < |ws| && Verifies(ws, version) && k < |ws| && ws[k] < U32 && w < U32 && w != ws[k]
    ensures Verifies(ws[k := w], version) <==> k == 0
  {
    var last := |ws| - 1;
    var stamped := Stamp(ws, version);
    if k == 0 {
      assert Stamp(ws[0 := w], version) == stamped;
    } else if k < last {
      assert Stamp(ws[k := w], version) == stamped[k := w];
      ChecksumDiffers(stamped, k, w);
    } else {
      assert Stamp(ws[k := w], version)[..last] == stamped[..last];
    }
  }

  // A word written at its place is the only one that changes.
  lemma WordsUpdate(before: seq<Byte>, after: seq<Byte>, k: nat, v: nat)
    requires |before| == |after| && 4 * k + 4 <= |before| && v < U32
    requires forall j :: 0 <= j < |after| && !(4 * k <= j < 4 * k + 4) ==> after[j] == before[j]
    requires forall j :: 0 <= j < 4 ==> after[4 * k + j] == ByteOf(v, j)
    ensures Words(after) == Words(before)[k := v]
  {
    hide ByteOf, Le32;
    WordOfBytes(v);
    assert after[4 * k + 0] == ByteOf(v, 0) && after[4 * k + 1] == ByteOf(v, 1);
    assert after[4 * k + 2] == ByteOf(v, 2) && after[4 * k + 3] == ByteOf(v, 3);
  }

  // Write the version into the data.
  method MacData(data: array<Byte>, version: Word)
    requires 8 <= data.Length
    modifies data
    ensures Words(data[..]) == Stamp(Words(old(data[..])), version)
  {
    ghost var before := data[..];
    WriteWord(data, 0, version);
    WordsUpdate(before, data[..], 0, version);
  }

  /** Seal the data for a version, or check it: the result is 0 just when it verifies. */
  method Check(chip: Chip, checkOnly: nat, data: array<Byte>, version: Word) returns (failed: nat)
    requires data.Length == DataSize(chip)
    modifies data
    ensures IsSet(chip, checkOnly) ==> Words(data[..]) == Stamp(Words(old(data[..])), version)
    ensures IsSet(chip, checkOnly) ==> failed == if Verifies(Words(old(data[..])), version) then 0 else 1
    ensures !IsSet(chip, checkOnly) ==> Words(data[..]) == Seal(Words(old(data[..])), version) && failed == 0
  {
    hide Words, Total, Checksum, ByteOf, Le32;
    MacData(data, version);
    ghost var ws := Words(data[..]);
    var n := (ParamSize(chip) + HEADER) / 4;
    var sum := SumWords(data, n);
    var expected := U32 - 1 - sum;
    var actual := Le32(data[4 * n], data[4 * n + 1], data[4 * n + 2], data[4 * n + 3]);
    LastWord(data[..], n);
    if IsSet(chip, checkOnly) {
      failed := if expected != actual then 1 else 0;
    } else {
      ghost var before := data[..];
      WriteWord(data, 4 * n, expected);
      WordsUpdate(before, data[..], n, expected);
      failed := 0;
    }
  }

  lemma LastWord(bytes: seq<Byte>, n: nat)
    requires |bytes| == 4 * n + 4
    ensures |Words(bytes)| == n + 1 && Words(bytes)[n] == WordAt(bytes, 4 * n)
    ensures Checksum(Words(bytes)) == U32 - 1 - Total(Words(bytes)[..n]) % U32
  {
  }

  method SumWords(data: array<Byte>, n: nat) returns (sum: nat)
    requires 4 * n <= data.Length
    ensures |Words(data[..])| == data.Length / 4 && sum == Total(Words(data[..])[..n]) % U32
  {
    hide Total, Le32;
    ghost var ws := Words(data[..]);
    sum := 0;
    TotalStart(ws);
    for i := 0 to n
      invariant sum == Total(ws[..i]) % U32
    {
      var w := Le32(data[4 * i], data[4 * i + 1], data[4 * i + 2], data[4 * i + 3]);
      assert w == ws[i];
      TotalStep(ws, i);
      sum := (sum + w) % U32;
    }
  }

  lemma TotalStart(ws: seq<nat>)
    ensures Total(ws[..0]) % U32 == 0
  {
  }

  lemma TotalStep(ws: seq<nat>, i: nat)
    requires i < |ws|
    ensures Total(ws[..i + 1]) % U32 == (Total(ws[..i]) % U32 + ws[i]) % U32
  {
    assert ws[..i + 1][..i] == ws[..i];
  }
}
