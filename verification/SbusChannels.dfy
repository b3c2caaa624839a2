/**
 The payload of an SBUS frame: 22 bytes that carry sixteen 11-bit channels,
 least significant bit first, then one byte of flags.
 */
module SbusChannels {
  import opened CArith
  import opened Bits
  import opened Nonlinear
  import Digits

  const SBUS_FRAME_LENGTH := 25
  const SBUS_CHANNEL_NUMBER := 18
  const ANALOG_CHANNELS: nat := 16
  const PAYLOAD_BYTES: nat := 22

  type Frame = s: seq<U8> | |s| == SBUS_FRAME_LENGTH witness seq(SBUS_FRAME_LENGTH, _ => 0)

  /** The message the receiver task reads; filled in through a pointer. */
  class SbusMessage {
    const channels: array<U16>
    var frameLoss: bool
    var faultProtection: bool

    constructor ()
      ensures channels.Length == SBUS_CHANNEL_NUMBER && fresh(channels)
    {
      channels := new U16[SBUS_CHANNEL_NUMBER];
      frameLoss, faultProtection := false, false;
    }

    /** What it means for this message to be the content of a frame. */
    ghost predicate Holds(frame: Frame)
      reads this, channels
    {
      && channels.Length == SBUS_CHANNEL_NUMBER
      && channels[..16] == Unpack(frame[1..23])
      && channels[16] == And(frame[23], 0x80)
      && channels[17] == And(frame[23], 0x40)
      && frameLoss == (And(frame[23], 0x20) != 0)
      && faultProtection == (And(frame[23], 0x10) != 0)
    }
  }

  /** Sixteen channels are the base-2048 digits of the number with these base-256 digits. */
  ghost function Unpack(payload: seq<U8>): (channels: seq<nat>)
    ensures |channels| == 16 && Digits.IsDigits(channels, 0x800)
  {
    Digits.DigitsOf(Digits.Value(payload, 0x100), 0x800, ANALOG_CHANNELS)
  }

  /** The payload of given channels, as a transmitter would lay it out. */
  ghost function Pack(channels: seq<nat>): (payload: seq<nat>)
    ensures |payload| == 22 && Digits.IsDigits(payload, 0x100)
  {
    Digits.DigitsOf(Digits.Value(channels, 0x800), 0x100, PAYLOAD_BYTES)
  }

  lemma PayloadCapacity()
    ensures Digits.Pow(0x100, 22) == Pow2(176) == Digits.Pow(0x800, 16)
  {
    Digits.PowOfPow2(8, 22);
    Digits.PowOfPow2(11, 16);
    assert Pow2(8) == 0x100 && Pow2(11) == 0x800;
  }

  /** Any sixteen 11-bit values survive packing and unpacking. */
  lemma UnpackPack(channels: seq<nat>)
    requires |channels| == 16 && Digits.IsDigits(channels, 0x800)
    ensures Unpack(Pack(channels)) == channels
  {
    hide Digits.Value, Digits.DigitsOf, Digits.Pow;
    PayloadCapacity();
    Digits.ChangeBase(channels, 0x800, 0x100, PAYLOAD_BYTES);
  }

  /** Any 22 bytes survive unpacking and packing: no payload bit is dropped. */
  lemma PackUnpack(payload: seq<U8>)
    requires |payload| == 22
    ensures Digits.Value(Unpack(payload), 0x800) == Digits.Value(payload, 0x100)
    ensures Pack(Unpack(payload)) == payload
  {
    hide Digits.Value, Digits.DigitsOf, Digits.Pow;
    PayloadCapacity();
    Digits.ChangeBase(payload, 0x100, 0x800, ANALOG_CHANNELS);
  }

  // ---------- shifts, ors and masks against base conversion ----------

  /** A channel that straddles two bytes, starting at bit r of byte i. */
  function TwoBytes(frame: seq<U8>, i: nat, r: nat): (v: U16)
    requires i + 1 < |frame| && r <= 8
    ensures v <= 0x07FF
  {
    And(Or(Shr(frame[i], r), Shl(frame[i + 1], 8 - r)), 0x07FF)
  }

  /** A channel that straddles three bytes, starting at bit r of byte i. */
  function ThreeBytes(frame: seq<U8>, i: nat, r: nat): (v: U16)
    requires i + 2 < |frame| && r <= 8
    ensures v <= 0x07FF
  {
    And(Or(Or(Shr(frame[i], r), Shl(frame[i + 1], 8 - r)), Shl(frame[i + 2], 16 - r)), 0x07FF)
  }

  /** The digit of channel k, as eleven bits from bit r of byte i on. */
  lemma ChannelWindow(frame: Frame, k: nat, i: nat, r: nat)
    requires k < 16 && 1 <= i < 23 && r < 8 && 11 * k == 8 * (i - 1) + r
    ensures Unpack(frame[1..23])[k] == Digits.Value(frame[i..23], 0x100) / Pow2(r) % 0x800
  {
    var payload := frame[1..23];
    var v, q := Digits.Value(payload, 0x100), i - 1;
    assert payload[q..] == frame[i..23];
    Digits.DigitAt(v, 0x800, 16, k);
    Digits.DropDigits(payload, 0x100, q);
    PowersMeet(k, q, r);
    DivNested(v, Digits.Pow(0x100, q), Pow2(r));
  }

  lemma PowersMeet(k: nat, q: nat, r: nat)
    requires 11 * k == 8 * q + r
    ensures Digits.Pow(0x800, k) == Digits.Pow(0x100, q) * Pow2(r)
  {
    assert Pow2(8) == 0x100 && Pow2(11) == 0x800;
    Digits.PowOfPow2(11, k);
    Digits.PowOfPow2(8, q);
    Digits.Pow2Add(8 * q, r);
  }

  lemma TwoBytesValue(frame: Frame, i: nat, r: nat)
    requires i < 22 && r <= 5
    ensures TwoBytes(frame, i, r) == Digits.Value(frame[i..23], 0x100) / Pow2(r) % 0x800
  {
    FirstByte(frame, i);
    FirstByte(frame, i + 1);
    var rest := Digits.Value(frame[i + 2..23], 0x100);
    EvaluateTwo(frame[i], frame[i + 1], rest, Digits.Value(frame[i..23], 0x100), r);
  }

  lemma ThreeBytesValue(frame: Frame, i: nat, r: nat)
    requires i < 21 && 6 <= r <= 7
    ensures ThreeBytes(frame, i, r) == Digits.Value(frame[i..23], 0x100) / Pow2(r) % 0x800
  {
    FirstThreeBytes(frame, i);
    var rest := Digits.Value(frame[i + 3..23], 0x100);
    EvaluateThree(frame[i], frame[i + 1], frame[i + 2], rest, Digits.Value(frame[i..23], 0x100), r);
  }

  lemma EvaluateTwo(low: U8, mid: U8, rest: nat, v: nat, r: nat)
    requires r <= 5 && v == low + 0x100 * (mid + 0x100 * rest)
    ensures And(Or(Shr(low, r), Shl(mid, 8 - r)), 0x07FF) == v / Pow2(r) % 0x800
  {
    OrTwo(low, mid, r);
    ShiftTwo(low, mid, rest, r);
  }

  lemma EvaluateThree(low: U8, mid: U8, high: U8, rest: nat, v: nat, r: nat)
    requires 6 <= r <= 7 && v == low + 0x100 * (mid + 0x100 * (high + 0x100 * rest))
    ensures And(Or(Or(Shr(low, r), Shl(mid, 8 - r)), Shl(high, 16 - r)), 0x07FF) == v / Pow2(r) % 0x800
  {
    OrThree(low, mid, high, r);
    ShiftThree(low, mid, high, rest, r);
  }

  lemma FirstByte(frame: Frame, i: nat)
    requires i < 23
    ensures Digits.Value(frame[i..23], 0x100) == frame[i] + 0x100 * Digits.Value(frame[i + 1..23], 0x100)
  {
    assert frame[i..23][1..] == frame[i + 1..23];
  }

  lemma FirstThreeBytes(frame: Frame, i: nat)
    requires i < 21
    ensures Digits.Value(frame[i..23], 0x100)
         == frame[i] + 0x100 * (frame[i + 1] + 0x100 * (frame[i + 2] + 0x100 * Digits.Value(frame[i + 3..23], 0x100)))
  {
    FirstByte(frame, i);
    FirstByte(frame, i + 1);
    FirstByte(frame, i + 2);
  }

  /** The pieces of a channel share no bit, so the source's `|` adds them up. */
  lemma OrTwo(low: U8, mid: U8, r: nat)
    requires r <= 8
    ensures And(Or(Shr(low, r), Shl(mid, 8 - r)), 0x07FF) == (Shr(low, r) + Shl(mid, 8 - r)) % 0x800
  {
    hide Or, And, Shl, Shr;
    ShiftedBelow(low, r);
    OrDisjoint(Shr(low, r), mid, 8 - r);
    AndLowMask(Shr(low, r) + Shl(mid, 8 - r), 11);
    assert Pow2(11) == 0x800;
  }

  lemma OrThree(low: U8, mid: U8, high: U8, r: nat)
    requires r <= 8
    ensures And(Or(Or(Shr(low, r), Shl(mid, 8 - r)), Shl(high, 16 - r)), 0x07FF)
         == (Shr(low, r) + Shl(mid, 8 - r) + Shl(high, 16 - r)) % 0x800
  {
    hide Or, And, Shl, Shr;
    ShiftedBelow(low, r);
    OrDisjoint(Shr(low, r), mid, 8 - r);
    var sum := Shr(low, r) + Shl(mid, 8 - r);
    TwoBytesBelow(low, mid, r);
    OrDisjoint(sum, high, 16 - r);
    AndLowMask(sum + Shl(high, 16 - r), 11);
    assert Pow2(11) == 0x800;
  }

  lemma TwoBytesBelow(low: U8, mid: U8, r: nat)
    requires r <= 8
    ensures Shr(low, r) + Shl(mid, 8 - r) < Pow2(16 - r)
  {
    ShiftedBelow(low, r);
    var p := Pow2(8 - r);
    Digits.Pow2Add(8 - r, 8);
    assert Pow2(8) == 0x100;
    MulMono(mid, 0xFF, p);
  }

  lemma ShiftedBelow(b: U8, r: nat)
    requires r <= 8
    ensures 0 <= Shr(b, r) < Pow2(8 - r)
  {
    Digits.Pow2Add(r, 8 - r);
    assert Pow2(8) == 0x100;
    DivBelow(b, Pow2(r), Pow2(8 - r));
    DivNonneg(b, Pow2(r));
  }

  /** Bits r..r+10 of a number whose lowest byte is `low`, by the bytes that hold them. */
  lemma ShiftTwo(low: U8, mid: U8, rest: nat, r: nat)
    requires r <= 5
    ensures (low + 0x100 * (mid + 0x100 * rest)) / Pow2(r) % 0x800 == (Shr(low, r) + Shl(mid, 8 - r)) % 0x800
  {
    ShiftByte(low, mid + 0x100 * rest, r);
    var p := Pow2(8 - r);
    Distribute(p, mid, 0x100 * rest);
    HighBitsVanish(8 - r, 8, rest);
    AddMultiple(Shr(low, r) + Shl(mid, 8 - r), 0x800, Pow2(8 - r + 8 - 11) * rest);
  }

  lemma ShiftThree(low: U8, mid: U8, high: U8, rest: nat, r: nat)
    requires 6 <= r <= 7
    ensures (low + 0x100 * (mid + 0x100 * (high + 0x100 * rest))) / Pow2(r) % 0x800
         == (Shr(low, r) + Shl(mid, 8 - r) + Shl(high, 16 - r)) % 0x800
  {
    ShiftByte(low, mid + 0x100 * (high + 0x100 * rest), r);
    SpreadShift(mid, high, rest, 8 - r);
    HighBitsVanish(16 - r, 8, rest);
    AddMultiple(Shr(low, r) + Shl(mid, 8 - r) + Shl(high, 16 - r), 0x800, Pow2(16 - r + 8 - 11) * rest);
  }

  lemma SpreadShift(mid: nat, high: nat, rest: nat, a: nat)
    ensures Pow2(a) * (mid + 0x100 * (high + 0x100 * rest))
         == Shl(mid, a) + Shl(high, a + 8) + Pow2(a + 8) * (0x100 * rest)
  {
    var upper := high + 0x100 * rest;
    Distribute(Pow2(a), mid, 0x100 * upper);
    Digits.Pow2Add(a, 8);
    assert Pow2(8) == 0x100;
    Assoc(Pow2(a), 0x100, upper);
    Distribute(Pow2(a + 8), high, 0x100 * rest);
  }

  /** Shifting out r bits of the lowest byte. */
  lemma ShiftByte(low: U8, upper: nat, r: nat)
    requires r <= 8
    ensures (low + 0x100 * upper) / Pow2(r) == Shr(low, r) + Pow2(8 - r) * upper
  {
    Digits.Pow2Add(r, 8 - r);
    assert Pow2(8) == 0x100;
    Assoc(Pow2(r), Pow2(8 - r), upper);
    AddMultiple(low, Pow2(r), Pow2(8 - r) * upper);
  }

  /** A term shifted to bit 11 or higher is a multiple of 2^11. */
  lemma HighBitsVanish(a: nat, b: nat, rest: nat)
    requires a + b >= 11
    ensures Pow2(a) * (Pow2(b) * rest) == 0x800 * (Pow2(a + b - 11) * rest)
  {
    Digits.Pow2Add(a, b);
    Digits.Pow2Add(11, a + b - 11);
    assert Pow2(11) == 0x800;
    Assoc(Pow2(a), Pow2(b), rest);
    Assoc(0x800, Pow2(a + b - 11), rest);
  }

  /** A channel expression of the source is the digit of the channel that starts at its byte and bit. */
  lemma ChannelInTwoBytes(frame: Frame, k: nat, i: nat, r: nat)
    requires k < 16 && 1 <= i < 22 && r <= 5 && 11 * k == 8 * (i - 1) + r
    ensures TwoBytes(frame, i, r) == Unpack(frame[1..23])[k]
  {
    TwoBytesValue(frame, i, r);
    ChannelWindow(frame, k, i, r);
  }

  lemma ChannelInThreeBytes(frame: Frame, k: nat, i: nat, r: nat)
    requires k < 16 && 1 <= i < 21 && 6 <= r <= 7 && 11 * k == 8 * (i - 1) + r
    ensures ThreeBytes(frame, i, r) == Unpack(frame[1..23])[k]
  {
    ThreeBytesValue(frame, i, r);
    ChannelWindow(frame, k, i, r);
  }

  /** The sixteen expressions of the source, in its order. */
  function ChannelExpressions(b: Frame): (c: seq<U16>)
    ensures |c| == 16
  {
    [TwoBytes(b, 1, 0), TwoBytes(b, 2, 3), ThreeBytes(b, 3, 6), TwoBytes(b, 5, 1),
     TwoBytes(b, 6, 4), ThreeBytes(b, 7, 7), TwoBytes(b, 9, 2), TwoBytes(b, 10, 5),
     TwoBytes(b, 12, 0), TwoBytes(b, 13, 3), ThreeBytes(b, 14, 6), TwoBytes(b, 16, 1),
     TwoBytes(b, 17, 4), ThreeBytes(b, 18, 7), TwoBytes(b, 20, 2), TwoBytes(b, 21, 5)]
  }

  lemma ExpressionsUnpack(b: Frame)
    ensures ChannelExpressions(b) == Unpack(b[1..23])
  {
    hide Unpack, TwoBytes, ThreeBytes;
    ChannelInTwoBytes(b, 0, 1, 0);
    ChannelInTwoBytes(b, 1, 2, 3);
    ChannelInThreeBytes(b, 2, 3, 6);
    ChannelInTwoBytes(b, 3, 5, 1);
    ChannelInTwoBytes(b, 4, 6, 4);
    ChannelInThreeBytes(b, 5, 7, 7);
    ChannelInTwoBytes(b, 6, 9, 2);
    ChannelInTwoBytes(b, 7, 10, 5);
    ChannelInTwoBytes(b, 8, 12, 0);
    ChannelInTwoBytes(b, 9, 13, 3);
    ChannelInThreeBytes(b, 10, 14, 6);
    ChannelInTwoBytes(b, 11, 16, 1);
    ChannelInTwoBytes(b, 12, 17, 4);
    ChannelInThreeBytes(b, 13, 18, 7);
    ChannelInTwoBytes(b, 14, 20, 2);
    ChannelInTwoBytes(b, 15, 21, 5);
  }
}
