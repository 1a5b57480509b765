/**
 Transmitting a frame with retries: the sequence number, the Retry bit, the rates and the backoff of
 every attempt, and what the caller is told. What the air does to the attempts is a parameter.
 */
module TxRetry {
  import opened Wrappers
  import opened Bits
  import opened Edca
  import opened Signals

  type Rate = nat

  datatype MacProtocolError =
    | AckTimeout
    | CtsTimeout
    | RtsChannelAccessError(error: ChannelAccessError)
    | InvalidKeyId
    | Unknown(main: Byte, sub: Byte)

  datatype TxError =
    | ChannelAccess(access: ChannelAccessError)
    | MacProtocol(protocol: MacProtocolError)
    | BufferTooShort
    | DisabledKeySlot
    | OutOfBounds

  datatype TxErrorBehaviour = RetryUntil(retries: Byte) | MultiRateRetry(rates: seq<Rate>) | Drop

  datatype TxMacParameters = TxMacParameters(overrideSeqNum: bool, keySlotIndex: Option<Byte>)

  const INTERFACE_COUNT := 4
  const KEY_SLOT_COUNT := 25

  function Attempts(behaviour: TxErrorBehaviour): (n: nat) {
    match behaviour
    case RetryUntil(retries) => retries + 1
    case MultiRateRetry(rates) => |rates|
    case Drop => 1
  }

  // The first entry of a rate list is not used.
  function RateOf(behaviour: TxErrorBehaviour, initial: Rate, i: nat): (rate: Rate)
    requires i < Attempts(behaviour)
  {
    match behaviour
    case RetryUntil(_) => initial
    case MultiRateRetry(rates) => if i == 0 then initial else rates[i]
    case Drop => initial
  }

  // What happens to an attempt: it is sent, it fails, or the caller drops the future meanwhile.
  datatype Fate = Sent | NoAccess(access: ChannelAccessError) | NoAnswer(protocol: MacProtocolError) | Dropped

  // An attempt, as it goes to the hardware.
  datatype Attempt = Attempt(rate: Rate, backoff: nat, frame: seq<Byte>)

  // How a call ends.
  datatype Ending = Returned(result: Result<nat, TxError>) | Cancelled | Panicked

  datatype Prepared = Extracted(duration: nat, isUnicast: bool) | Refused(error: TxError) | Panics

  // Bit 3 of byte 1 of the frame control field is the Retry bit, section 9.2.4.1.
  predicate Retry(frame: seq<Byte>)
    requires 1 < |frame|
  {
    frame[1] / 8 % 2 == 1
  }

  function SetRetry(b: Byte): (r: Byte)
    ensures r / 8 % 2 == 1 && r % 8 == b % 8 && r / 16 == b / 16
  {
    if b / 8 % 2 == 1 then b else b + 8
  }

  function ClearRetry(b: Byte): (r: Byte)
    ensures r / 8 % 2 == 0 && r % 8 == b % 8 && r / 16 == b / 16
  {
    if b / 8 % 2 == 1 then b - 8 else b
  }

  // The sequence number and fragment number of the sequence control field, section 9.2.4.4.
  function SequenceNumber(frame: seq<Byte>): (n: nat)
    requires 24 <= |frame|
  {
    Le16(frame[22], frame[23]) / 16
  }

  function FragmentNumber(frame: seq<Byte>): (n: nat)
    requires 24 <= |frame|
  {
    frame[22] % 16
  }

  // Write the 16-bit counter, shifted by the width of the fragment number.
  function Stamp(frame: seq<Byte>, counter: nat): (r: seq<Byte>)
    requires 24 <= |frame|
    ensures |r| == |frame| && forall i :: 0 <= i < |frame| && i != 22 && i != 23 ==> r[i] == frame[i]
  {
    var field := (counter * 16) % 0x1_0000;
    frame[22 := field % 256][23 := field / 256]
  }

  lemma StampedNumber(frame: seq<Byte>, counter: nat)
    requires 24 <= |frame|
    ensures SequenceNumber(Stamp(frame, counter)) == counter % 4096
    ensures FragmentNumber(Stamp(frame, counter)) == 0
  {
    var field := (counter * 16) % 0x1_0000;
    assert field == (counter % 4096) * 16;
  }

  // How many of the attempts failed with a MAC protocol error.
  function MacFailures(fates: seq<Fate>): (n: nat) {
    if fates == [] then 0 else
    MacFailures(fates[..|fates| - 1]) + if fates[|fates| - 1].NoAnswer? then 1 else 0
  }

  lemma MacFailuresStep(fates: seq<Fate>, i: nat)
    requires i < |fates|
    ensures MacFailures(fates[..i + 1]) == MacFailures(fates[..i]) + if fates[i].NoAnswer? then 1 else 0
  {
    assert fates[..i + 1][..i] == fates[..i];
  }

  // The frame of the attempt after `fates`.
  function FrameAfter(base: seq<Byte>, fates: seq<Fate>): (r: seq<Byte>)
    requires 1 < |base|
    ensures |r| == |base|
  {
    if MacFailures(fates) == 0 then base else base[1 := SetRetry(base[1])]
  }

  lemma FrameAtFirst(base: seq<Byte>)
    requires 1 < |base|
    ensures FrameAfter(base, []) == base && MacFailures([]) == 0
  {
  }

  lemma FrameStep(base: seq<Byte>, fates: seq<Fate>, i: nat)
    requires 1 < |base| && i < |fates|
    ensures var now := FrameAfter(base, fates[..i]);
      FrameAfter(base, fates[..i + 1]) == if fates[i].NoAnswer? then now[1 := SetRetry(now[1])] else now
  {
    MacFailuresStep(fates, i);
  }

  // Clearing the bit restores all but a bit the caller had set.
  lemma ClearUndoes(base: seq<Byte>, fates: seq<Fate>)
    requires 1 < |base|
    ensures var now := FrameAfter(base, fates); now[1 := ClearRetry(now[1])] == base[1 := ClearRetry(base[1])]
  {
  }

  predicate HasWindow(range: Option<(nat, nat)>) {
    range.Some? && range.value.0 <= range.value.1
  }

  // The backoff of the attempt after `fates`.
  function BackoffAfter(range: Option<(nat, nat)>, fates: seq<Fate>, random: nat): (slots: nat) {
    if HasWindow(range) then random % (Window(range.value.0, range.value.1, MacFailures(fates)) + 1) else 1
  }

  // Of `n` allowed attempts the first `used` have to be made: all, or up to the first that is sent
  // or dropped.
  ghost predicate Stops(fates: seq<Fate>, n: nat, used: nat)
    requires n <= |fates|
  {
    && used <= n
    && (forall k :: 0 <= k < used - 1 ==> fates[k].NoAccess? || fates[k].NoAnswer?)
    && (used < n ==> 0 < used && (fates[used - 1].Sent? || fates[used - 1].Dropped?))
  }

  ghost predicate RightContents(initialRate: Rate, behaviour: TxErrorBehaviour, range: Option<(nat, nat)>,
                                base: seq<Byte>, fates: seq<Fate>, random: seq<nat>, sent: seq<Attempt>)
    requires |sent| <= Attempts(behaviour) <= |fates| && Attempts(behaviour) <= |random| && 1 < |base|
  {
    forall k :: 0 <= k < |sent| ==>
      sent[k] == Attempt(RateOf(behaviour, initialRate, k), BackoffAfter(range, fates[..k], random[k]),
                         FrameAfter(base, fates[..k]))
  }

  // `n` attempts at most are made: all of them, or up to the first that is sent or dropped.
  ghost predicate MakesUpTo(fates: seq<Fate>, n: nat, sent: seq<Attempt>) {
    && |sent| <= n <= |fates|
    && (forall k :: 0 <= k < |sent| - 1 ==> !fates[k].Sent? && !fates[k].Dropped?)
    && (|sent| == n || (0 < |sent| && (fates[|sent| - 1].Sent? || fates[|sent| - 1].Dropped?)))
  }

  // How often and at which rates a frame is tried.
  ghost predicate RightRates(initialRate: Rate, behaviour: TxErrorBehaviour, fates: seq<Fate>, sent: seq<Attempt>) {
    match behaviour
    case RetryUntil(retries) =>
      MakesUpTo(fates, retries + 1, sent) && forall k :: 0 <= k < |sent| ==> sent[k].rate == initialRate
    case MultiRateRetry(rates) =>
      && MakesUpTo(fates, |rates|, sent)
      && (0 < |sent| ==> sent[0].rate == initialRate)
      && forall k :: 1 <= k < |sent| ==> sent[k].rate == rates[k]
    case Drop =>
      MakesUpTo(fates, 1, sent) && forall k :: 0 <= k < |sent| ==> sent[k].rate == initialRate
  }

  // One slot without a contention window, or else the random number within the window that doubled
  // with every MAC protocol error.
  ghost predicate RightBackoffs(range: Option<(nat, nat)>, fates: seq<Fate>, random: seq<nat>, sent: seq<Attempt>)
    requires |sent| <= |fates| && |sent| <= |random|
  {
    forall k :: 0 <= k < |sent| ==>
      sent[k].backoff ==
      if range.Some? && range.value.0 <= range.value.1
      then random[k] % Pow2(Min(range.value.0 + MacFailures(fates[..k]), range.value.1)) else 1
  }

  lemma BackoffIsRight(range: Option<(nat, nat)>, fates: seq<Fate>, random: nat)
    requires HasWindow(range) ==> range.value.1 <= 31
    ensures BackoffAfter(range, fates, random) ==
      if range.Some? && range.value.0 <= range.value.1
      then random % Pow2(Min(range.value.0 + MacFailures(fates), range.value.1)) else 1
  {
    hide Window;
    if HasWindow(range) {
      WindowIsOnes(range.value.0, range.value.1, MacFailures(fates));
    }
  }

  lemma RatesAreRight(initialRate: Rate, behaviour: TxErrorBehaviour, range: Option<(nat, nat)>,
                      base: seq<Byte>, fates: seq<Fate>, random: seq<nat>, sent: seq<Attempt>)
    requires Attempts(behaviour) <= |fates| && Attempts(behaviour) <= |random| && 1 < |base|
    requires Stops(fates, Attempts(behaviour), |sent|)
    requires RightContents(initialRate, behaviour, range, base, fates, random, sent)
    requires HasWindow(range) ==> range.value.1 <= 31
    ensures RightRates(initialRate, behaviour, fates, sent) && RightBackoffs(range, fates, random, sent)
  {
    hide BackoffAfter, FrameAfter;
    forall k | 0 <= k < |sent|
      ensures BackoffAfter(range, fates[..k], random[k]) ==
        if range.Some? && range.value.0 <= range.value.1
        then random[k] % Pow2(Min(range.value.0 + MacFailures(fates[..k]), range.value.1)) else 1
    {
      BackoffIsRight(range, fates[..k], random[k]);
    }
  }

  // What the caller is told after the last of `used` attempts.
  function EndingAfter(fates: seq<Fate>, used: nat): (ending: Ending)
    requires used <= |fates|
  {
    if used == 0 then Returned(Ok(0)) else
    EndingOf(fates[used - 1], used - 1)
  }

  lemma {:induction false} NoMacFailures(fates: seq<Fate>)
    ensures MacFailures(fates) == 0 <==> forall j :: 0 <= j < |fates| ==> !fates[j].NoAnswer?
    decreases |fates|
  {
    if fates != [] {
      var front := fates[..|fates| - 1];
      NoMacFailures(front);
      assert forall j :: 0 <= j < |front| ==> front[j] == fates[j];
    }
  }

  /**
   An attempt is sent with the Retry bit just when the caller had set it or an earlier attempt had a
   MAC protocol error. All other bytes, the sequence number among them, are the same in all attempts.
   */
  lemma RetryBitMeaning(base: seq<Byte>, fates: seq<Fate>, k: nat)
    requires 1 < |base| && k <= |fates|
    ensures Retry(FrameAfter(base, fates[..k])) <==> Retry(base) || exists j :: 0 <= j < k && fates[j].NoAnswer?
    ensures FrameAfter(base, fates[..k])[1] in {base[1], SetRetry(base[1])}
    ensures forall i :: 0 <= i < |base| && i != 1 ==> FrameAfter(base, fates[..k])[i] == base[i]
  {
    NoMacFailures(fates[..k]);
    assert forall j :: 0 <= j < k ==> fates[..k][j] == fates[j];
  }

  /**
   Of 1 to 256 attempts, none of them dropped, the index of the first one that succeeds is returned,
   or else the error of the last one.
   */
  lemma ResultMeaning(fates: seq<Fate>, n: nat, used: nat)
    requires n <= |fates| && Stops(fates, n, used) && 1 <= n <= 256
    requires forall j :: 0 <= j < n ==> !fates[j].Dropped?
    ensures forall i :: 0 <= i < n ==>
      (EndingAfter(fates, used) == Returned(Ok(i)) <==> fates[i].Sent? && forall j :: 0 <= j < i ==> !fates[j].Sent?)
    ensures (forall j :: 0 <= j < n ==> !fates[j].Sent?) ==>
      used == n && EndingAfter(fates, used) ==
        Returned(Err(if fates[n - 1].NoAccess? then ChannelAccess(fates[n - 1].access) else MacProtocol(fates[n - 1].protocol)))
  {
  }

  // A returned index is that of an attempt which was made and sent.
  ghost predicate IndexIsRight(n: nat) {
    forall fates: seq<Fate>, used: nat, i: nat ::
      n <= |fates| && Stops(fates, n, used) && EndingAfter(fates, used) == Returned(Ok(i)) ==>
      i < used && fates[i].Sent?
  }

  /**
   The returned index can be relied on just when 1 to 256 attempts are allowed: an empty list of
   rates is a success that was never sent, and the index is cut to 8 bits.
   */
  lemma IndexIsRightIff(n: nat)
    ensures IndexIsRight(n) <==> 1 <= n <= 256
  {
    if n == 0 {
      assert Stops([], 0, 0) && EndingAfter([], 0) == Returned(Ok(0));
    } else if 256 < n {
      var fates := seq(n, k => if k == 256 then Sent else NoAccess(Timeout));
      assert Stops(fates, n, 257) && EndingAfter(fates, 257) == Returned(Ok(0));
      assert !fates[0].Sent?;
    }
  }

  // One call of `TransmitWithRetry`, with what happens to its attempts.
  datatype Request = Request(interface: nat, initialRate: Rate, mac: TxMacParameters, behaviour: TxErrorBehaviour,
                             range: Option<(nat, nat)>, frame: seq<Byte>, fates: seq<Fate>, random: seq<nat>) {
    predicate Valid() {
      && Attempts(behaviour) <= |fates| && Attempts(behaviour) <= |random|
      && (HasWindow(range) ==> range.value.1 <= 31)
    }

    // The frame is given a sequence number.
    predicate Stamped() {
      mac.overrideSeqNum && 24 <= |frame|
    }

    // A sequence number is used up, but the frame is too short to hold it.
    predicate Wasted() {
      mac.overrideSeqNum && 5 <= |frame| < 24
    }
  }

  function StampedIn(rs: seq<Request>): (n: nat) {
    if rs == [] then 0 else StampedIn(rs[..|rs| - 1]) + if rs[|rs| - 1].Stamped() then 1 else 0
  }

  function WastedIn(rs: seq<Request>): (n: nat) {
    if rs == [] then 0 else WastedIn(rs[..|rs| - 1]) + if rs[|rs| - 1].Wasted() then 1 else 0
  }

  // How many numbers have been used up.
  function UsedIn(rs: seq<Request>): (n: nat) {
    StampedIn(rs) + WastedIn(rs)
  }

  lemma UsedStep(rs: seq<Request>, k: nat)
    requires k < |rs|
    ensures UsedIn(rs[..k + 1]) == UsedIn(rs[..k]) + if rs[k].Stamped() || rs[k].Wasted() then 1 else 0
  {
    assert rs[..k + 1][..k] == rs[..k];
  }

  // The stamped frames carry consecutive numbers.
  ghost predicate Consecutive(rs: seq<Request>, start: nat) {
    forall k :: 0 <= k < |rs| && rs[k].Stamped() ==>
      (start + UsedIn(rs[..k])) % 4096 == (start + StampedIn(rs[..k])) % 4096
  }

  /**
   The n-th stamped frame of a run carries n, counted from the start and modulo 4096, just when the calls
   in front of each stamped frame have wasted no number, or a multiple of 4096 numbers.
   */
  lemma ConsecutiveIff(rs: seq<Request>, start: nat)
    ensures Consecutive(rs, start) <==> forall k :: 0 <= k < |rs| && rs[k].Stamped() ==> WastedIn(rs[..k]) % 4096 == 0
  {
    forall k | 0 <= k < |rs|
      ensures (start + UsedIn(rs[..k])) % 4096 == (start + StampedIn(rs[..k])) % 4096 <==> WastedIn(rs[..k]) % 4096 == 0
    {
      SameNumber(start + StampedIn(rs[..k]), WastedIn(rs[..k]));
    }
  }

  lemma SameNumber(a: nat, b: nat)
    ensures (a + b) % 4096 == a % 4096 <==> b % 4096 == 0
  {
  }

  // A frame of 5 to 23 bytes in front is enough.
  lemma WastedNumber(short: Request, long: Request, start: nat)
    requires short.Wasted() && long.Stamped()
    ensures !Consecutive([short, long], start) && UsedIn([short, long][..1]) == 1
  {
    var rs := [short, long];
    assert rs[..1] == [short] && [short][..0] == [];
    assert WastedIn(rs[..1]) == 1 && StampedIn(rs[..1]) == 0 && rs[1].Stamped();
    ConsecutiveIff(rs, start);
  }

  class Driver {
    // The static sequence counter, 16 bits wide.
    var sequence: nat
    var enabledKeySlots: set<nat>

    constructor ()
      ensures sequence == 0
    {
      sequence, enabledKeySlots := 0, {};
    }

    // The frame the counter value `counter` is stamped into, if it is to be and fits.
    static function Base(mac: TxMacParameters, frame: seq<Byte>, counter: nat): (r: seq<Byte>)
      ensures |r| == |frame|
    {
      if mac.overrideSeqNum && 24 <= |frame| then Stamp(frame, counter) else frame
    }

    // The outcome of the checks, in the order they are made.
    function Checks(interface: nat, mac: TxMacParameters, frame: seq<Byte>): (r: Prepared)
      reads `enabledKeySlots
    {
      if |frame| < 4 then Refused(BufferTooShort)
      else if |frame| == 4 then Panics
      else if mac.overrideSeqNum && |frame| < 24 then Refused(BufferTooShort)
      else if mac.keySlotIndex.Some? && KEY_SLOT_COUNT <= mac.keySlotIndex.value then Refused(OutOfBounds)
      else if mac.keySlotIndex.Some? && mac.keySlotIndex.value !in enabledKeySlots then Refused(DisabledKeySlot)
      else if INTERFACE_COUNT <= interface then Refused(OutOfBounds)
      else Extracted(Le16(frame[2], frame[3]), frame[4] % 2 == 0)
    }

    /**
     Extract the parameters of a frame and stamp it with the next sequence number. A buffer of
     exactly four bytes has a duration but no receiver address, and reading that panics.
     */
    method PrepareFrameForTx(interface: nat, mac: TxMacParameters, frame: array<Byte>) returns (r: Prepared)
      modifies `sequence, frame
      ensures r == old(Checks(interface, mac, frame[..]))
      // Duration and receiver of the frame.
      ensures r.Extracted? ==>
        && 5 <= frame.Length && r.duration % 256 == old(frame[2]) && r.duration / 256 == old(frame[3])
        && r.isUnicast == (old(frame[4]) % 2 == 0)
      // When it is refused.
      ensures r == Panics <==> frame.Length == 4
      ensures r == Refused(BufferTooShort) <==> frame.Length < 4 || (mac.overrideSeqNum && 5 <= frame.Length < 24)
      ensures var long, key := frame.Length >= if mac.overrideSeqNum then 24 else 5, mac.keySlotIndex;
        && (r == Refused(DisabledKeySlot) <==> long && key.Some? && key.value < 25 && key.value !in enabledKeySlots)
        && (r == Refused(OutOfBounds) <==>
            long && ((key.Some? && 25 <= key.value) || (4 <= interface && (key.Some? ==> key.value in enabledKeySlots))))
      ensures sequence == if mac.overrideSeqNum && 5 <= frame.Length then (old(sequence) + 1) % 0x1_0000 else old(sequence)
      ensures frame[..] == Base(mac, old(frame[..]), old(sequence))
    {
      if frame.Length < 4 {
        return Refused(BufferTooShort);
      }
      var duration := Le16(frame[2], frame[3]);
      if frame.Length == 4 {
        return Panics;
      }
      var isUnicast := frame[4] % 2 == 0;
      if mac.overrideSeqNum {
        var seqNum := sequence;
        sequence := (sequence + 1) % 0x1_0000;
        if 24 <= frame.Length {
          var field := (seqNum * 16) % 0x1_0000;
          frame[22], frame[23] := field % 256, field / 256;
        } else {
          return Refused(BufferTooShort);
        }
      }
      match mac.keySlotIndex {
        case Some(index) =>
          if KEY_SLOT_COUNT <= index {
            return Refused(OutOfBounds);
          }
          if index !in enabledKeySlots {
            return Refused(DisabledKeySlot);
          }
        case None =>
      }
      if INTERFACE_COUNT <= interface {
        return Refused(OutOfBounds);
      }
      return Extracted(duration, isUnicast);
    }

    /** Transmit a frame, and retry as `behaviour` says. */
    method TransmitWithRetry(interface: nat, initialRate: Rate, mac: TxMacParameters, behaviour: TxErrorBehaviour,
                             range: Option<(nat, nat)>, frame: array<Byte>, fates: seq<Fate>, random: seq<nat>)
      returns (ending: Ending, sent: seq<Attempt>)
      requires Attempts(behaviour) <= |fates| && Attempts(behaviour) <= |random|
      requires HasWindow(range) ==> range.value.1 <= 31
      modifies `sequence, frame
      ensures var base := Base(mac, old(frame[..]), old(sequence));
        match old(Checks(interface, mac, frame[..]))
        case Refused(error) => ending == Returned(Err(error)) && sent == [] && frame[..] == base
        case Panics => ending == Panicked && sent == [] && frame[..] == base
        case Extracted(_, _) =>
          && Stops(fates, Attempts(behaviour), |sent|)
          && 1 < |base| && RightContents(initialRate, behaviour, range, base, fates, random, sent)
          && RightRates(initialRate, behaviour, fates, sent) && RightBackoffs(range, fates, random, sent)
          && ending == EndingAfter(fates, |sent|)
          && frame[..] ==
             if ending == Cancelled then sent[|sent| - 1].frame else base[1 := ClearRetry(base[1])]
      ensures ending == Cancelled ==> 0 < |sent|
      ensures sequence == if mac.overrideSeqNum && 5 <= frame.Length then (old(sequence) + 1) % 0x1_0000 else old(sequence)
    {
      var prepared := PrepareFrameForTx(interface, mac, frame);
      match prepared
      case Refused(error) => ending, sent := Returned(Err(error)), [];
      case Panics => ending, sent := Panicked, [];
      case Extracted(_, _) =>
        ending, sent := RetryLoop(initialRate, behaviour, range, frame, fates, random);
    }

    // The loop over the attempts, with the Retry bit cleared behind it.
    method RetryLoop(initialRate: Rate, behaviour: TxErrorBehaviour, range: Option<(nat, nat)>,
                     frame: array<Byte>, fates: seq<Fate>, random: seq<nat>)
      returns (ending: Ending, sent: seq<Attempt>)
      requires Attempts(behaviour) <= |fates| && Attempts(behaviour) <= |random| && 1 < frame.Length
      requires HasWindow(range) ==> range.value.1 <= 31
      modifies frame
      ensures Stops(fates, Attempts(behaviour), |sent|)
      ensures RightContents(initialRate, behaviour, range, old(frame[..]), fates, random, sent)
      ensures RightRates(initialRate, behaviour, fates, sent) && RightBackoffs(range, fates, random, sent)
      ensures ending == EndingAfter(fates, |sent|)
      ensures frame[..] ==
        if ending == Cancelled then sent[|sent| - 1].frame else old(frame[..])[1 := ClearRetry(old(frame[1]))]
    {
      hide RightRates, RightBackoffs, MacFailures, FrameAfter, RateOf, SetRetry, ClearRetry, RightContents, Tracks, BackoffAfter;
      ghost var base := frame[..];
      FrameAtFirst(base);
      var state: EdcaContentionState? := null;
      if HasWindow(range) {
        state := new EdcaContentionState(range.value.0, range.value.1);
      }
      TracksNone(state, range);
      ending, sent := Returned(Ok(0)), [];
      NothingSent(initialRate, behaviour, range, base, fates, random);
      for i := 0 to Attempts(behaviour)
        invariant |sent| == i && RightContents(initialRate, behaviour, range, base, fates, random, sent)
        invariant forall k :: 0 <= k < i ==> fates[k].NoAccess? || fates[k].NoAnswer?
        invariant ending == EndingAfter(fates, i)
        invariant frame[..] == FrameAfter(base, fates[..i])
        invariant Tracks(state, range, fates[..i]) && (state != null ==> fresh(state))
      {
        var backoff := Backoff(state, range, fates[..i], random[i]);
        OneMoreSent(initialRate, behaviour, range, base, fates, random, sent);
        sent := sent + [Attempt(RateOf(behaviour, initialRate, i), backoff, frame[..])];
        ending := EndingOf(fates[i], i);
        if fates[i].Dropped? {
          RatesAreRight(initialRate, behaviour, range, base, fates, random, sent);
          return;
        }
        ClearUndoes(base, fates[..i]);
        if fates[i].NoAnswer? {
          frame[1] := SetRetry(frame[1]);
        }
        if fates[i].Sent? {
          break;
        }
        FrameStep(base, fates, i);
        Track(state, range, fates, i);
      }
      RatesAreRight(initialRate, behaviour, range, base, fates, random, sent);
      ClearUndoes(base, fates[..Attempts(behaviour)]);
      frame[1] := ClearRetry(frame[1]);
    }
  }

  // What the result of attempt `i` alone amounts to.
  function EndingOf(fate: Fate, i: nat): (ending: Ending) {
    match fate
    case Sent => Returned(Ok(i % 256))
    case NoAccess(error) => Returned(Err(ChannelAccess(error)))
    case NoAnswer(error) => Returned(Err(MacProtocol(error)))
    case Dropped => Cancelled
  }

  // The contention state has seen the failures among `fates`.
  ghost predicate Tracks(state: EdcaContentionState?, range: Option<(nat, nat)>, fates: seq<Fate>)
    reads state
  {
    && (state == null <==> !HasWindow(range))
    && (state != null ==>
          && state.Valid() && state.failures == MacFailures(fates)
          && state.first == range.value.0 && state.last == range.value.1)
  }

  lemma TracksNone(state: EdcaContentionState?, range: Option<(nat, nat)>)
    requires state == null <==> !HasWindow(range)
    requires state != null ==>
      state.Valid() && state.failures == 0 && state.first == range.value.0 && state.last == range.value.1
    ensures Tracks(state, range, [])
  {
  }

  method Backoff(state: EdcaContentionState?, range: Option<(nat, nat)>, ghost fates: seq<Fate>, random: nat)
    returns (slots: nat)
    requires Tracks(state, range, fates)
    ensures slots == BackoffAfter(range, fates, random)
  {
    hide Window;
    slots := 1;
    if state != null {
      slots := state.RandomBackoffSlotCount(random);
    }
  }

  method Track(state: EdcaContentionState?, range: Option<(nat, nat)>, fates: seq<Fate>, i: nat)
    requires i < |fates| && Tracks(state, range, fates[..i])
    modifies state
    ensures Tracks(state, range, fates[..i + 1])
  {
    hide Window, MacFailures;
    MacFailuresStep(fates, i);
    if state != null {
      Account(state, fates[i]);
    }
  }

  lemma NothingSent(initialRate: Rate, behaviour: TxErrorBehaviour, range: Option<(nat, nat)>,
                    base: seq<Byte>, fates: seq<Fate>, random: seq<nat>)
    requires Attempts(behaviour) <= |fates| && Attempts(behaviour) <= |random| && 1 < |base|
    ensures RightContents(initialRate, behaviour, range, base, fates, random, [])
  {
  }

  lemma OneMoreSent(initialRate: Rate, behaviour: TxErrorBehaviour, range: Option<(nat, nat)>,
                    base: seq<Byte>, fates: seq<Fate>, random: seq<nat>, sent: seq<Attempt>)
    requires |sent| < Attempts(behaviour) <= |fates| && Attempts(behaviour) <= |random| && 1 < |base|
    requires RightContents(initialRate, behaviour, range, base, fates, random, sent)
    ensures var i := |sent|;
      var next := Attempt(RateOf(behaviour, initialRate, i), BackoffAfter(range, fates[..i], random[i]),
                          FrameAfter(base, fates[..i]));
      RightContents(initialRate, behaviour, range, base, fates, random, sent + [next])
  {
    hide RateOf, BackoffAfter, FrameAfter;
  }

  // Every MAC protocol error widens the window, a channel access error does not.
  method Account(state: EdcaContentionState, fate: Fate)
    requires state.Valid()
    modifies state
    ensures state.Valid() && state.failures == old(state.failures) + if fate.NoAnswer? then 1 else 0
  {
    match fate
    case NoAnswer(AckTimeout) =>
      state.IncrementLrc();
      state.ResetSrc();
    case NoAnswer(_) =>
      state.IncrementSrc();
    case _ =>
  }

  ghost predicate Carries(frame: seq<Byte>, number: nat) {
    24 <= |frame| && SequenceNumber(frame) == number % 4096 && FragmentNumber(frame) == 0
  }

  // The Retry bit does not matter.
  lemma StampIsKept(stamped: seq<Byte>, frame: seq<Byte>, number: nat)
    requires Carries(stamped, number) && |frame| == |stamped|
    requires forall i :: 0 <= i < |frame| && i != 1 ==> frame[i] == stamped[i]
    ensures Carries(frame, number)
  {
  }

  lemma AllCarry(r: Request, counter: nat, number: nat, sent: seq<Attempt>)
    requires r.Valid() && r.Stamped() && counter % 4096 == number % 4096 && |sent| <= Attempts(r.behaviour)
    requires RightContents(r.initialRate, r.behaviour, r.range, Stamp(r.frame, counter), r.fates, r.random, sent)
    ensures Carries(Stamp(r.frame, counter), number)
    ensures forall j :: 0 <= j < |sent| ==> Carries(sent[j].frame, number)
  {
    hide Carries, Stamp, FrameAfter;
    var base := Stamp(r.frame, counter);
    CarriesStamp(r.frame, counter, number);
    forall j | 0 <= j < |sent|
      ensures Carries(sent[j].frame, number)
    {
      RetryBitMeaning(base, r.fates, j);
      StampIsKept(base, sent[j].frame, number);
    }
  }

  lemma CarriesStamp(frame: seq<Byte>, counter: nat, number: nat)
    requires 24 <= |frame| && counter % 4096 == number % 4096
    ensures Carries(Stamp(frame, counter), number)
  {
    hide Stamp, SequenceNumber, FragmentNumber;
    StampedNumber(frame, counter);
  }

  // A count, as far as the 16-bit counter holds it.
  function Wrapped(number: nat): (counter: nat)
    ensures counter < 0x1_0000
  {
    number % 0x1_0000
  }

  lemma Wraps(number: nat)
    ensures Wrapped(number) % 4096 == number % 4096 && (Wrapped(number) + 1) % 0x1_0000 == Wrapped(number + 1)
  {
    var q, c := number / 0x1_0000, number % 0x1_0000;
    var a, b := c / 4096, c % 4096;
    assert number == 4096 * (16 * q + a) + b;
    DivMod(4096, 16 * q + a, b);
    if c + 1 < 0x1_0000 {
      DivMod(0x1_0000, q, c + 1);
    } else {
      DivMod(0x1_0000, q + 1, 0);
    }
  }

  // One call. All attempts and the buffer carry the number of the call.
  method TransmitOne(driver: Driver, r: Request, ghost number: nat) returns (sent: seq<Attempt>, after: seq<Byte>)
    requires r.Valid() && driver.sequence == Wrapped(number)
    modifies driver
    ensures driver.sequence == Wrapped(if r.Stamped() || r.Wasted() then number + 1 else number)
    ensures r.Stamped() ==> Carries(after, number) && forall j :: 0 <= j < |sent| ==> Carries(sent[j].frame, number)
  {
    hide Carries, Stamp, RightContents, Stops, ClearRetry, EndingAfter, Attempts, Wrapped;
    Wraps(number);
    var frame := new Byte[|r.frame|](i requires 0 <= i < |r.frame| => r.frame[i]);
    assert frame[..] == r.frame;
    ghost var counter, checks := driver.sequence, driver.Checks(r.interface, r.mac, frame[..]);
    var ending;
    ending, sent := driver.TransmitWithRetry(r.interface, r.initialRate, r.mac, r.behaviour, r.range, frame, r.fates, r.random);
    after := frame[..];
    if r.Stamped() {
      CarriesStamp(r.frame, counter, number);
      if checks.Extracted? {
        AllCarry(r, counter, number, sent);
        if ending != Cancelled {
          StampIsKept(Stamp(r.frame, counter), after, number);
        } else {
          assert after == sent[|sent| - 1].frame;
        }
      }
    }
  }

  /**
   Over every sequence of calls, a stamped frame carries in all its attempts, and in the buffer
   afterwards, the number of calls in front of it that used up a number, counted from the start.
   */
  method TransmitAll(driver: Driver, rs: seq<Request>) returns (sent: seq<seq<Attempt>>, after: seq<seq<Byte>>)
    requires driver.sequence < 0x1_0000 && forall k :: 0 <= k < |rs| ==> rs[k].Valid()
    modifies driver
    ensures |sent| == |after| == |rs|
    ensures driver.sequence == Wrapped(old(driver.sequence) + UsedIn(rs))
    ensures forall k :: 0 <= k < |rs| && rs[k].Stamped() ==>
      var number := old(driver.sequence) + UsedIn(rs[..k]);
      Carries(after[k], number) && forall j :: 0 <= j < |sent[k]| ==> Carries(sent[k][j].frame, number)
  {
    hide Carries, UsedIn;
    ghost var start := driver.sequence;
    sent, after := [], [];
    NoneUsed(rs);
    for i := 0 to |rs|
      invariant |sent| == |after| == i && driver.sequence == Wrapped(start + UsedIn(rs[..i]))
      invariant forall k :: 0 <= k < i && rs[k].Stamped() ==>
        var number := start + UsedIn(rs[..k]);
        Carries(after[k], number) && forall j :: 0 <= j < |sent[k]| ==> Carries(sent[k][j].frame, number)
    {
      var s, a := TransmitOne(driver, rs[i], start + UsedIn(rs[..i]));
      UsedStep(rs, i);
      sent, after := sent + [s], after + [a];
    }
    assert rs[..|rs|] == rs;
  }

  lemma NoneUsed(rs: seq<Request>)
    ensures UsedIn(rs[..0]) == 0
  {
  }
}
