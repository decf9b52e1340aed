/** The 64-bit sliding replay window of one channel, and the guard that holds one per channel. */
module ReplayWindow {
  import opened Bytes
  import opened Header
  import opened Primitives

  const REPLAY_WINDOW_BITS := 64

  // ----- bits of a u64, with the bits shifted out of 64 places lost

  const TWO_64 := 0x1_0000_0000_0000_0000

  /** `v & (1 << d) != 0` */
  predicate Bit(v: nat, d: nat) {
    if d == 0 then v % 2 == 1 else Bit(v / 2, d - 1)
  }

  /** `v | (1 << d)` */
  function SetBit(v: nat, d: nat): nat {
    if d == 0 then v - v % 2 + 1 else 2 * SetBit(v / 2, d - 1) + v % 2
  }

  /** `v << n` */
  function ShiftLeft(v: u64, n: nat): u64 {
    if n == 0 then v else ShiftLeft(v, n - 1) * 2 % TWO_64
  }

  lemma {:induction false} BitOfSetBit(v: nat, e: nat, d: nat)
    ensures Bit(SetBit(v, e), d) <==> d == e || Bit(v, d)
    decreases d
  {
    if d > 0 {
      if e == 0 {
        assert SetBit(v, e) / 2 == v / 2;
      } else {
        assert SetBit(v, e) / 2 == SetBit(v / 2, e - 1);
        BitOfSetBit(v / 2, e - 1, d - 1);
      }
    }
  }

  lemma {:induction false} SetBitInRange(v: nat, e: nat, k: nat)
    requires e < k && v < Pow2(k)
    ensures SetBit(v, e) < Pow2(k)
  {
    if e > 0 {
      SetBitInRange(v / 2, e - 1, k - 1);
    } else {
      assert Pow2(k) == 2 * Pow2(k - 1);
    }
  }

  /** Taking away a high power of two leaves the lower bits alone. */
  lemma {:induction false} BitBelow(v: nat, k: nat, d: nat)
    requires d < k && Pow2(k) <= v
    ensures Bit(v - Pow2(k), d) == Bit(v, d)
  {
    assert Pow2(k) == 2 * Pow2(k - 1);
    if d > 0 {
      BitBelow(v / 2, k - 1, d - 1);
    }
  }

  lemma Pow2Of63()
    ensures Pow2(63) == 0x8000_0000_0000_0000 && Pow2(64) == TWO_64
  {
    assert Pow2(8) == 0x100 && Pow2(16) == 0x1_0000 && Pow2(24) == 0x100_0000 && Pow2(32) == 0x1_0000_0000;
    assert Pow2(40) == 0x100_0000_0000 && Pow2(48) == 0x1_0000_0000_0000 && Pow2(56) == 0x100_0000_0000_0000;
  }

  lemma BitOfDouble(v: u64, d: nat)
    requires d < 64
    ensures Bit(v * 2 % TWO_64, d) <==> d > 0 && Bit(v, d - 1)
  {
    Pow2Of63();
    if d > 0 && v >= Pow2(63) {
      assert (v * 2 % TWO_64) / 2 == v - Pow2(63);
      BitBelow(v, 63, d - 1);
    }
  }

  lemma {:induction false} BitOfShift(v: u64, n: nat, d: nat)
    requires d < 64
    ensures Bit(ShiftLeft(v, n), d) <==> d >= n && Bit(v, d - n)
  {
    if n > 0 {
      BitOfDouble(ShiftLeft(v, n - 1), d);
      if d > 0 {
        BitOfShift(v, n - 1, d - 1);
      }
    }
  }

  lemma {:induction false} BitOfOne(d: nat)
    ensures Bit(1, d) <==> d == 0
  {
    if d > 0 { BitOfZero(d - 1); }
  }

  lemma {:induction false} BitOfZero(d: nat)
    ensures !Bit(0, d)
  {
    if d > 0 { BitOfZero(d - 1); }
  }

  function SetBit64(v: u64, d: nat): u64
    requires d < REPLAY_WINDOW_BITS
  {
    Pow2Of63();
    SetBitInRange(v, d, 64);
    SetBit(v, d)
  }

  // ----- the window

  datatype ReplayWindow = ReplayWindow(highest: Option<u64>, bitmap: u64)

  const EMPTY_WINDOW := ReplayWindow(None, 0)

  function Check(w: ReplayWindow, sequence: u64): Result<(), CryptoError> {
    if w.highest.None? || sequence > w.highest.value then Ok(())
    else
      var distance := w.highest.value - sequence;
      if distance >= REPLAY_WINDOW_BITS then Err(MessageTooOld)
      else if Bit(w.bitmap, distance) then Err(ReplayDetected)
      else Ok(())
  }

  /** `record`; a number below the window would shift out of range, so callers check first. */
  function Record(w: ReplayWindow, sequence: u64): ReplayWindow
    requires w.highest.Some? ==> w.highest.value < sequence + REPLAY_WINDOW_BITS
  {
    if w.highest.None? then ReplayWindow(Some(sequence), 1)
    else if sequence > w.highest.value then
      var shift := sequence - w.highest.value;
      ReplayWindow(Some(sequence), if shift >= REPLAY_WINDOW_BITS then 1 else SetBit64(ShiftLeft(w.bitmap, shift), 0))
    else w.(bitmap := SetBit64(w.bitmap, w.highest.value - sequence))
  }

  // ----- refinement of the plain set of accepted numbers

  /** Bit `d` is set exactly when `highest - d` was accepted, and nothing is above `highest`. */
  ghost predicate Refines(w: ReplayWindow, accepted: set<int>) {
    match w.highest
    case None => accepted == {}
    case Some(h) =>
      && h in accepted
      && (forall q :: q in accepted ==> 0 <= q <= h)
      && (forall d :: 0 <= d < 64 ==> (Bit(w.bitmap, d) <==> h - d in accepted))
  }

  /** New, and above the lower edge of the window. */
  ghost predicate Acceptable(accepted: set<int>, sequence: int) {
    && sequence !in accepted
    && forall q :: q in accepted ==> q < sequence + 64
  }

  /** The check on the bitmap is the check on the set, with the matching error. */
  lemma CheckDecidesAcceptable(w: ReplayWindow, accepted: set<int>, sequence: u64)
    requires Refines(w, accepted)
    ensures Check(w, sequence).Ok? <==> Acceptable(accepted, sequence)
    ensures Check(w, sequence) == Err(MessageTooOld) <==>
      exists q :: q in accepted && q >= sequence + 64
    ensures Check(w, sequence) == Err(ReplayDetected) <==>
      sequence in accepted && forall q :: q in accepted ==> q < sequence + 64
  {
    if w.highest.Some? && sequence <= w.highest.value < sequence + REPLAY_WINDOW_BITS {
      var d := w.highest.value - sequence;
      assert Bit(w.bitmap, d) <==> w.highest.value - d in accepted;
    }
  }

  /** Where each bit of the recorded window comes from. */
  lemma RecordedBit(w: ReplayWindow, sequence: u64, d: nat)
    requires w.highest.Some? ==> w.highest.value < sequence + REPLAY_WINDOW_BITS
    requires d < REPLAY_WINDOW_BITS
    ensures Bit(Record(w, sequence).bitmap, d) <==>
      if w.highest.None? then d == 0
      else if sequence > w.highest.value then
        d == 0 || (d >= sequence - w.highest.value && Bit(w.bitmap, d - (sequence - w.highest.value)))
      else d == w.highest.value - sequence || Bit(w.bitmap, d)
  {
    BitOfOne(d);
    if w.highest.Some? {
      var h := w.highest.value;
      if sequence > h {
        BitOfSetBit(ShiftLeft(w.bitmap, sequence - h), 0, d);
        BitOfShift(w.bitmap, sequence - h, d);
      } else {
        BitOfSetBit(w.bitmap, h - sequence, d);
      }
    }
  }

  lemma RecordRefines(w: ReplayWindow, accepted: set<int>, sequence: u64)
    requires Refines(w, accepted) && Acceptable(accepted, sequence)
    ensures Refines(Record(w, sequence), accepted + {sequence})
  {
    var r := Record(w, sequence);
    forall d | 0 <= d < REPLAY_WINDOW_BITS
      ensures Bit(r.bitmap, d) <==> r.highest.value - d in accepted + {sequence}
    {
      RecordedBit(w, sequence, d);
    }
  }

  // ----- whole runs

  /** Presents the numbers one after another, recording each that passes the check. */
  function Present(w: ReplayWindow, sequences: seq<u64>): (ReplayWindow, seq<u64>)
    decreases |sequences|
  {
    if sequences == [] then (w, [])
    else
      var q := sequences[0];
      if Check(w, q).Ok? then
        var (end, rest) := Present(Record(w, q), sequences[1..]);
        (end, [q] + rest)
      else Present(w, sequences[1..])
  }

  ghost predicate Distinct(s: seq<u64>) {
    forall i, j :: 0 <= i < j < |s| ==> s[i] != s[j]
  }

  ghost function SetOf(s: seq<u64>): set<int> {
    set q: int | q in s
  }

  lemma {:induction false} PresentFrom(w: ReplayWindow, accepted: set<int>, sequences: seq<u64>)
    requires Refines(w, accepted)
    ensures var (end, taken) := Present(w, sequences);
            && Refines(end, accepted + SetOf(taken))
            && Distinct(taken)
            && SetOf(taken) !! accepted
    decreases |sequences|
  {
    if sequences != [] {
      var q := sequences[0];
      CheckDecidesAcceptable(w, accepted, q);
      if Check(w, q).Ok? {
        RecordRefines(w, accepted, q);
        PresentFrom(Record(w, q), accepted + {q}, sequences[1..]);
        var rest := Present(Record(w, q), sequences[1..]).1;
        assert SetOf([q] + rest) == {q} + SetOf(rest);
        assert accepted + SetOf([q] + rest) == accepted + {q} + SetOf(rest);
        assert forall i :: 0 <= i < |rest| ==> rest[i] in SetOf(rest);
      } else {
        PresentFrom(w, accepted, sequences[1..]);
      }
    } else {
      assert accepted + SetOf([]) == accepted;
    }
  }

  /** Over every run the bitmap is exactly the recent part of the accepted set, nothing is accepted
      twice, and the next number is accepted exactly when it is new and not below the window. */
  lemma WindowRefinesAcceptedSet(sequences: seq<u64>, next: u64)
    ensures var (end, taken) := Present(EMPTY_WINDOW, sequences);
            && Refines(end, SetOf(taken))
            && Distinct(taken)
            && (Check(end, next).Ok? <==> Acceptable(SetOf(taken), next))
  {
    PresentFrom(EMPTY_WINDOW, {}, sequences);
    var (end, taken) := Present(EMPTY_WINDOW, sequences);
    assert {} + SetOf(taken) == SetOf(taken);
    CheckDecidesAcceptable(end, SetOf(taken), next);
  }

  // ----- one window per channel

  type Windows = w: seq<ReplayWindow> | |w| == CHANNEL_COUNT witness seq(9, i => ReplayWindow(None, 0))

  function GuardCheck(windows: Windows, channel: ChannelId, sequence: u64): Result<(), CryptoError> {
    if sequence > MAX_SECURE_SEQUENCE then Err(SequenceExhausted)
    else Check(windows[channel.Code()], sequence)
  }

  function GuardRecord(windows: Windows, channel: ChannelId, sequence: u64): Windows
    requires GuardCheck(windows, channel, sequence).Ok?
  {
    windows[channel.Code() := Record(windows[channel.Code()], sequence)]
  }

  /** The guard takes numbers up to 2^48 - 1 that are new to their channel and not below its window. */
  lemma GuardChecksIff(windows: Windows, channel: ChannelId, sequence: u64, accepted: set<int>)
    requires Refines(windows[channel.Code()], accepted)
    ensures GuardCheck(windows, channel, sequence).Ok? <==>
      sequence < 0x1_0000_0000_0000 && Acceptable(accepted, sequence)
    ensures GuardCheck(windows, channel, sequence) == Err(SequenceExhausted) <==> sequence >= 0x1_0000_0000_0000
  {
    CheckDecidesAcceptable(windows[channel.Code()], accepted, sequence);
  }

  /** Recording on one channel leaves the others alone. */
  lemma GuardRecordsOne(windows: Windows, channel: ChannelId, sequence: u64, accepted: set<int>, other: ChannelId)
    requires Refines(windows[channel.Code()], accepted) && GuardCheck(windows, channel, sequence).Ok?
    ensures Refines(GuardRecord(windows, channel, sequence)[channel.Code()], accepted + {sequence})
    ensures other != channel ==> GuardRecord(windows, channel, sequence)[other.Code()] == windows[other.Code()]
  {
    CheckDecidesAcceptable(windows[channel.Code()], accepted, sequence);
    RecordRefines(windows[channel.Code()], accepted, sequence);
    ChannelCodes(channel);
    ChannelCodes(other);
  }

  class ReplayGuard {
    var channels: Windows

    constructor ()
      ensures channels == seq(CHANNEL_COUNT, i => EMPTY_WINDOW)
    {
      channels := seq(CHANNEL_COUNT, i => EMPTY_WINDOW);
    }

    method CheckSequence(channel: ChannelId, sequence: u64) returns (r: Result<(), CryptoError>)
      ensures r == GuardCheck(channels, channel, sequence)
    {
      if sequence > MAX_SECURE_SEQUENCE {
        return Err(SequenceExhausted);
      }
      var window := channels[channel.Code()];
      if window.highest.None? || sequence > window.highest.value {
        return Ok(());
      }
      var distance := window.highest.value - sequence;
      if distance >= REPLAY_WINDOW_BITS {
        return Err(MessageTooOld);
      }
      if Bit(window.bitmap, distance) {
        return Err(ReplayDetected);
      }
      return Ok(());
    }

    method RecordSequence(channel: ChannelId, sequence: u64)
      requires GuardCheck(channels, channel, sequence).Ok?
      modifies this
      ensures channels == GuardRecord(old(channels), channel, sequence)
    {
      var window := channels[channel.Code()];
      if window.highest.None? {
        window := ReplayWindow(Some(sequence), 1);
      } else if sequence > window.highest.value {
        var shift := sequence - window.highest.value;
        var bitmap := if shift >= REPLAY_WINDOW_BITS then 1 else SetBit64(ShiftLeft(window.bitmap, shift), 0);
        window := ReplayWindow(Some(sequence), bitmap);
      } else {
        window := window.(bitmap := SetBit64(window.bitmap, window.highest.value - sequence));
      }
      channels := channels[channel.Code() := window];
    }
  }
}
