/**
 Commands to a VESC motor controller as CAN frames. Physical quantities are
 sent as integers of a fixed scale, to and from single-precision floats.
 */
module Vesc {
  import opened CArith
  import opened Wrappers
  import opened Bits
  import opened CanBytes
  import Float32

  const CAN_EFF_FLAG: U32 := 0x8000_0000
  const VESC_COMM_SET_SERVO_POS_ID: U8 := 0x0c
  const MCU_ID: U8 := 0x60

  datatype Kind = ServoPos | DutyCycle | Current | CurrentBrake | Rpm | Position {

    /** The command part of the frame identifier, in multiples of 0x100. */
    function Number(): nat {
      match this
      case DutyCycle => 0
      case Current => 1
      case CurrentBrake => 2
      case Rpm => 3
      case Position => 4
      case ServoPos => 8
    }

    /** Counts per unit of the fixed-point commands. */
    function Scale(): int {
      match this
      case ServoPos => 1000
      case DutyCycle => 100000
      case Current => 1000
      case CurrentBrake => 1000
      case Position => 100000
      case Rpm => 1
    }

    function Max(): int {
      match this
      case Current => 20
      case CurrentBrake => 20
      case _ => 1
    }

    /** Half a unit in the last place of the largest quantities. */
    function HalfUnit(): real {
      if Max() == 1 then 1.0 / 16777216.0 else 1.0 / 1048576.0
    }
  }

  datatype CmdPacket =
    | ServoPosCmd(pos: real)
    | DutyCycleCmd(duty: real)
    | CurrentCmd(current: real)
    | CurrentBrakeCmd(brake: real)
    | RpmCmd(rpm: I32)
    | PositionCmd(position: real)

  /** The packet a caller hands over by pointer. */
  class PacketBuffer {
    var pkt: CmdPacket

    constructor (pkt: CmdPacket)
      ensures this.pkt == pkt
    {
      this.pkt := pkt;
    }
  }

  // ---------- values ----------

  /** The identifier as the encoders build it. */
  function FrameId(kind: Kind, vescId: U8): U32 {
    IdIsSum(kind, vescId);
    Or(Or(Shl(kind.Number(), 8), vescId), CAN_EFF_FLAG)
  }

  lemma IdIsSum(kind: Kind, vescId: U8)
    ensures Or(Or(Shl(kind.Number(), 8), vescId), CAN_EFF_FLAG)
         == 0x8000_0000 + 0x100 * kind.Number() + vescId
    ensures 0x8000_0000 + 0x100 * kind.Number() + vescId < 0x1_0000_0000
  {
    hide Or, Shl;
    JoinTwoBytes(kind.Number(), vescId);
    SetTopBit(0x100 * kind.Number() + vescId);
  }

  lemma SetTopBit(low: nat)
    requires low < 0x8000_0000
    ensures Or(low, CAN_EFF_FLAG) == 0x8000_0000 + low
  {
    hide Or;
    Digits31();
    OrDisjoint(low, 1, 31);
  }

  lemma Digits31()
    ensures Pow2(31) == 0x8000_0000
  {
    PowersOf256();
    assert Pow2(27) == 8 * Pow2(24) by { assert Pow2(25) == 2 * Pow2(24); }
    assert Pow2(29) == 4 * Pow2(27);
    assert Pow2(31) == 4 * Pow2(29);
  }

  function Clamp(x: real, min: real, max: real): real {
    var y := if x > max then max else x;
    if y < min then min else y
  }

  function Clamped(kind: Kind, x: real): (c: real)
    ensures 0.0 <= c <= kind.Max() as real
  {
    Clamp(x, 0.0, kind.Max() as real)
  }

  /** A quantity in units of the command, not rounded. */
  function InCounts(kind: Kind, x: real): real {
    x * kind.Scale() as real
  }

  /** The integer that is sent for a clamped quantity: the product is rounded, then truncated. */
  function ToCounts(kind: Kind, c: real): (n: I32)
    requires 0.0 <= c <= kind.Max() as real
    ensures 0 <= n <= kind.Scale() * kind.Max() <= 100000
  {
    ScaledRange(kind, c);
    Float32.RoundBetween(InCounts(kind, c), 0, kind.Scale() * kind.Max());
    TruncReal(Float32.Round(InCounts(kind, c)))
  }

  function Counts(kind: Kind, x: real): (n: I32)
    ensures 0 <= n <= kind.Scale() * kind.Max() <= 100000
  {
    ToCounts(kind, Clamped(kind, x))
  }

  lemma ScaledRange(kind: Kind, c: real)
    requires 0.0 <= c <= kind.Max() as real
    ensures 0.0 <= InCounts(kind, c) <= (kind.Scale() * kind.Max()) as real
  {}

  /** The quantity read for an integer: conversion and division each round. */
  function Fixed(n: int, scale: int): real
    requires scale > 0
  {
    Float32.Round(Float32.Round(n as real) / scale as real)
  }

  /** Low two bytes of a count, as the servo encoder extracts them. */
  function LowBytes(n: I32): (s: seq<U8>)
    ensures |s| == 2
  {
    [Encoded(n)[2], Encoded(n)[3]]
  }

  /** The payload of a command to one controller. */
  function Payload(kind: Kind, vescId: U8, n: I32): seq<U8> {
    if kind == ServoPos then [vescId, 0x00, VESC_COMM_SET_SERVO_POS_ID] + LowBytes(n) else Encoded(n)
  }

  function Packet(kind: Kind, n: I32): CmdPacket {
    match kind
    case ServoPos => ServoPosCmd(Fixed(n, 1000))
    case DutyCycle => DutyCycleCmd(Fixed(n, 100000))
    case Current => CurrentCmd(Fixed(n, 1000))
    case CurrentBrake => CurrentBrakeCmd(Fixed(n, 1000))
    case Rpm => RpmCmd(n)
    case Position => PositionCmd(Fixed(n, 100000))
  }

  /** What the parser makes of a frame: whether it accepts it, and the packet if it fills one in. */
  function Parsed(id: U32, data: seq<U8>): (bool, Option<CmdPacket>)
    requires |data| == 8
  {
    if id == FrameId(ServoPos, MCU_ID) then
      (true, if data[2] == VESC_COMM_SET_SERVO_POS_ID
             then Some(ServoPosCmd(Fixed(Or(Shl(data[3], 8), data[4]), 1000))) else None)
    else if id == FrameId(DutyCycle, MCU_ID) then (true, Some(Packet(DutyCycle, Decoded(data[0..4]))))
    else if id == FrameId(Current, MCU_ID) then (true, Some(Packet(Current, Decoded(data[0..4]))))
    else if id == FrameId(CurrentBrake, MCU_ID) then (true, Some(Packet(CurrentBrake, Decoded(data[0..4]))))
    else if id == FrameId(Rpm, MCU_ID) then (true, Some(Packet(Rpm, Decoded(data[0..4]))))
    else if id == FrameId(Position, MCU_ID) then (true, Some(Packet(Position, Decoded(data[0..4]))))
    else (false, None)
  }

  // ---------- methods ----------

  /** Limits a command in place. */
  method ClampCommand(cmd: real, min: real, max: real) returns (clamped: real)
    ensures min <= max ==> min <= clamped <= max
    ensures min <= cmd <= max ==> clamped == cmd
    ensures clamped == Clamp(cmd, min, max)
  {
    clamped := cmd;
    if clamped > max {
      clamped := max;
    }
    if clamped < min {
      clamped := min;
    }
  }

  /** What a frame of this kind looks like; bytes behind the payload are not initialised. */
  ghost predicate Carries(frame: CanFrame, kind: Kind, vescId: U8, n: I32)
    reads frame, frame.data
  {
    && frame.data.Length == 8 && frame.id == FrameId(kind, vescId)
    && frame.dlc == |Payload(kind, vescId, n)| <= 8
    && frame.data[..frame.dlc] == Payload(kind, vescId, n)
  }

  method ServoPosToFrame(vescId: U8, pos: real) returns (frame: CanFrame)
    ensures fresh(frame) && fresh(frame.data) && Carries(frame, ServoPos, vescId, Counts(ServoPos, pos))
  {
    hide Encoded, FrameId, Float32.Round;
    var clamped := ClampCommand(pos, 0.0, 1.0);
    frame := new CanFrame();
    frame.id := FrameId(ServoPos, vescId);
    frame.dlc := 5;
    frame.data[0] := vescId;
    frame.data[1] := 0x00;
    frame.data[2] := VESC_COMM_SET_SERVO_POS_ID;
    var posCmd := ToCounts(ServoPos, clamped);
    frame.data[3], frame.data[4] := Encoded(posCmd)[2], Encoded(posCmd)[3];
    assert posCmd == Counts(ServoPos, pos);
    assert frame.data[..5] == Payload(ServoPos, vescId, posCmd);
  }

  /** The four fixed-point commands with a 32-bit payload, and the speed command, differ in these numbers only. */
  method WordToFrame(kind: Kind, vescId: U8, n: I32) returns (frame: CanFrame)
    requires kind != ServoPos
    ensures fresh(frame) && fresh(frame.data) && Carries(frame, kind, vescId, n)
  {
    hide Encoded;
    frame := new CanFrame();
    frame.id := FrameId(kind, vescId);
    frame.dlc := 4;
    var bytes := Encoded(n);
    frame.data[0], frame.data[1], frame.data[2], frame.data[3] := bytes[0], bytes[1], bytes[2], bytes[3];
  }

  method DutyCycleToFrame(vescId: U8, duty: real) returns (frame: CanFrame)
    ensures fresh(frame) && fresh(frame.data) && Carries(frame, DutyCycle, vescId, Counts(DutyCycle, duty))
  {
    hide Carries;
    var clamped := ClampCommand(duty, 0.0, 1.0);
    frame := WordToFrame(DutyCycle, vescId, ToCounts(DutyCycle, clamped));
  }

  method CurrentToFrame(vescId: U8, current: real) returns (frame: CanFrame)
    ensures fresh(frame) && fresh(frame.data) && Carries(frame, Current, vescId, Counts(Current, current))
  {
    hide Carries;
    var clamped := ClampCommand(current, 0.0, 20.0);
    frame := WordToFrame(Current, vescId, ToCounts(Current, clamped));
  }

  method CurrentBrakeToFrame(vescId: U8, current: real) returns (frame: CanFrame)
    ensures fresh(frame) && fresh(frame.data) && Carries(frame, CurrentBrake, vescId, Counts(CurrentBrake, current))
  {
    hide Carries;
    var clamped := ClampCommand(current, 0.0, 20.0);
    frame := WordToFrame(CurrentBrake, vescId, ToCounts(CurrentBrake, clamped));
  }

  method RpmToFrame(vescId: U8, rpm: I32) returns (frame: CanFrame)
    ensures fresh(frame) && fresh(frame.data) && Carries(frame, Rpm, vescId, rpm)
  {
    frame := WordToFrame(Rpm, vescId, rpm);
  }

  method PositionToFrame(vescId: U8, pos: real) returns (frame: CanFrame)
    ensures fresh(frame) && fresh(frame.data) && Carries(frame, Position, vescId, Counts(Position, pos))
  {
    hide Carries;
    var clamped := ClampCommand(pos, 0.0, 1.0);
    frame := WordToFrame(Position, vescId, ToCounts(Position, clamped));
  }

  method CanFrameToCmdPacket(frame: CanFrame, buffer: PacketBuffer) returns (ret: bool)
    requires frame.data.Length == 8
    modifies buffer
    ensures ret == Parsed(frame.id, frame.data[..]).0
    ensures buffer.pkt == Parsed(frame.id, frame.data[..]).1.GetOr(old(buffer.pkt))
  {
    hide Decoded, FrameId, Or, Fixed;
    ret := true;
    var data := frame.data[..];
    if frame.id == FrameId(ServoPos, MCU_ID) {
      if data[2] == VESC_COMM_SET_SERVO_POS_ID {
        buffer.pkt := ServoPosCmd(Fixed(Or(Shl(data[3], 8), data[4]), 1000));
      }
    } else if frame.id == FrameId(DutyCycle, MCU_ID) {
      buffer.pkt := DutyCycleCmd(Fixed(Decoded(data[0..4]), 100000));
    } else if frame.id == FrameId(Current, MCU_ID) {
      buffer.pkt := CurrentCmd(Fixed(Decoded(data[0..4]), 1000));
    } else if frame.id == FrameId(CurrentBrake, MCU_ID) {
      buffer.pkt := CurrentBrakeCmd(Fixed(Decoded(data[0..4]), 1000));
    } else if frame.id == FrameId(Rpm, MCU_ID) {
      buffer.pkt := RpmCmd(Decoded(data[0..4]));
    } else if frame.id == FrameId(Position, MCU_ID) {
      buffer.pkt := PositionCmd(Fixed(Decoded(data[0..4]), 100000));
    } else {
      ret := false;
    }
  }

  // ---------- properties ----------

  /** The identifier determines the command and the addressee. */
  lemma IdsDiffer(k1: Kind, id1: U8, k2: Kind, id2: U8)
    requires FrameId(k1, id1) == FrameId(k2, id2)
    ensures k1 == k2 && id1 == id2
  {
    hide Or;
    IdIsSum(k1, id1);
    IdIsSum(k2, id2);
  }

  /** The identifiers and payloads in numbers. */
  lemma FrameTable(vescId: U8, n: I32)
    ensures FrameId(DutyCycle, vescId) == 0x8000_0000 + vescId
    ensures FrameId(Current, vescId) == 0x8000_0100 + vescId
    ensures FrameId(CurrentBrake, vescId) == 0x8000_0200 + vescId
    ensures FrameId(Rpm, vescId) == 0x8000_0300 + vescId
    ensures FrameId(Position, vescId) == 0x8000_0400 + vescId
    ensures FrameId(ServoPos, vescId) == 0x8000_0800 + vescId
    ensures forall kind :: kind != ServoPos ==> Payload(kind, vescId, n) == Encoded(n)
    ensures 0 <= n <= 1000 ==> Payload(ServoPos, vescId, n) == [vescId, 0x00, 0x0c, n / 0x100, n % 0x100]
  {
    hide Encoded, Or, Shl;
    IdIsSum(DutyCycle, vescId);
    IdIsSum(Current, vescId);
    IdIsSum(CurrentBrake, vescId);
    IdIsSum(Rpm, vescId);
    IdIsSum(Position, vescId);
    IdIsSum(ServoPos, vescId);
    EncodedDigits(n);
  }

  /** What each frame for this controller, 0x60, is read as. */
  lemma PacketTable(id: U32, n: I32, word: seq<U8>)
    requires |word| == 8 && word[0..4] == Encoded(n)
    ensures id == 0x8000_0060 ==> Parsed(id, word) == (true, Some(DutyCycleCmd(Fixed(n, 100000))))
    ensures id == 0x8000_0160 ==> Parsed(id, word) == (true, Some(CurrentCmd(Fixed(n, 1000))))
    ensures id == 0x8000_0260 ==> Parsed(id, word) == (true, Some(CurrentBrakeCmd(Fixed(n, 1000))))
    ensures id == 0x8000_0360 ==> Parsed(id, word) == (true, Some(RpmCmd(n)))
    ensures id == 0x8000_0460 ==> Parsed(id, word) == (true, Some(PositionCmd(Fixed(n, 100000))))
  {
    hide Encoded, Decoded, Or, Shl, Fixed, FrameId;
    FrameTable(0x60, n);
    DecodeEncode(n);
  }

  lemma ServoTable(id: U32, n: nat, data: seq<U8>)
    requires |data| == 8 && n == 0x100 * (data[3] as int) + data[4] as int
    ensures id == 0x8000_0860 && data[2] == 0x0c ==> Parsed(id, data) == (true, Some(ServoPosCmd(Fixed(n, 1000))))
    ensures id == 0x8000_0860 && data[2] != 0x0c ==> Parsed(id, data) == (true, None)
  {
    hide Decoded, Or, Shl, Fixed, FrameId;
    FrameTable(0x60, 0);
    JoinTwoBytes(data[3], data[4]);
  }

  /** No other frame is accepted. */
  lemma OtherFramesRejected(id: U32, data: seq<U8>)
    requires |data| == 8
    requires id !in {0x8000_0060, 0x8000_0160, 0x8000_0260, 0x8000_0360, 0x8000_0460, 0x8000_0860}
    ensures Parsed(id, data) == (false, None)
  {
    hide FrameId, Decoded, Or, Shl, Fixed;
    FrameTable(0x60, 0);
  }

  /** The quantity limited to a range from zero, in numbers. */
  function Limited(x: real, max: real): real {
    if x < 0.0 then 0.0 else if x > max then max else x
  }

  lemma KindTable()
    ensures ServoPos.Scale() == Current.Scale() == CurrentBrake.Scale() == 1000
    ensures DutyCycle.Scale() == Position.Scale() == 100000
    ensures ServoPos.Max() == DutyCycle.Max() == Position.Max() == 1
    ensures Current.Max() == CurrentBrake.Max() == 20
  {}

  /** The integer that is sent: scale times the limited quantity, truncated, within rounding. */
  lemma CountTable(kind: Kind, x: real)
    ensures -1.01 < Counts(kind, x) as real - Limited(x, kind.Max() as real) * kind.Scale() as real <= 0.01
  {
    hide Counts, Float32.Round, Kind.Scale, Kind.Max;
    RoundedProduct(kind, Clamped(kind, x));
    CountsOfClamped(kind, x);
  }

  /** What is read for any word, in counts: the word, within 256. */
  lemma FixedNear(n: I32)
    ensures -256.0 <= Fixed(n, 1000) * 1000.0 - n as real <= 256.0
    ensures -256.0 <= Fixed(n, 100000) * 100000.0 - n as real <= 256.0
  {
    hide Float32.Round, Float32.Exp2;
    Float32.FirstPowers();
    var r := Float32.Round(n as real);
    Float32.ErrorBelow(n as real, 8);
    Float32.ErrorBelow(r / 1000.0, -2);
    Float32.ErrorBelow(r / 100000.0, -9);
  }

  /** The conversion rounds before the division does: these words are read as if they were 1 more or less. */
  lemma BothRoundingsCount()
    ensures Fixed(16777219, 1000) == Float32.Round(16777.22) == 8589937.0 / 512.0
    ensures Float32.Round(16777.219) == 8589936.0 / 512.0
    ensures Fixed(16777217, 100000) == Float32.Round(167.77216) == 10995116.0 / 65536.0
    ensures Float32.Round(167.77217) == 10995117.0 / 65536.0
  {
    hide Float32.Round, Float32.Exp2;
    Float32.FirstPowers();
    Float32.SmallPowers();
    Float32.RoundAt(16777219.0, 1, 8388610);
    Float32.RoundAt(16777.22, -9, 8589937);
    Float32.RoundAt(16777.219, -9, 8589936);
    Float32.RoundAt(16777217.0, 1, 8388608);
    Float32.RoundAt(167.77216, -16, 10995116);
    Float32.RoundAt(167.77217, -16, 10995117);
  }

  /** Reading a count back errs by less than 0.006 counts, and stays in the command's range. */
  lemma FixedError(kind: Kind, n: int)
    requires 0 <= n <= kind.Scale() * kind.Max()
    ensures var q := Fixed(n, kind.Scale());
            && 0.0 <= q <= kind.Max() as real
            && -0.006 <= InCounts(kind, q) - n as real <= 0.006
  {
    hide Float32.Round, Kind.HalfUnit;
    var scale := kind.Scale() as real;
    var x := n as real / scale;
    Float32.QuotientTimes(n as real, scale);
    RatioRange(kind, n);
    Float32.RoundInteger(n);
    Float32.RoundBetween(x, 0, kind.Max());
    RatioError(kind, x);
    Magnified(Float32.Round(x), x, kind.HalfUnit(), scale);
    HalfUnitInCounts(kind);
  }

  lemma HalfUnitInCounts(kind: Kind)
    ensures kind.HalfUnit() > 0.0 && kind.HalfUnit() * kind.Scale() as real <= 0.006
  {}

  lemma RatioError(kind: Kind, x: real)
    requires 0.0 <= x <= kind.Max() as real
    ensures -kind.HalfUnit() <= Float32.Round(x) - x <= kind.HalfUnit()
  {
    hide Float32.Round, Float32.Exp2;
    Float32.SmallPowers();
    Float32.ErrorBelow(x, if kind.Max() == 1 then -23 else -19);
  }

  lemma Magnified(q: real, x: real, d: real, scale: real)
    requires scale > 0.0 && -d <= q - x <= d
    ensures -(d * scale) <= q * scale - x * scale <= d * scale
  {
    Float32.NonnegativeProduct(d - (q - x), scale);
    Float32.NonnegativeProduct(d + (q - x), scale);
    assert (d - (q - x)) * scale == d * scale - (q * scale - x * scale);
    assert (d + (q - x)) * scale == d * scale + (q * scale - x * scale);
  }

  lemma RatioRange(kind: Kind, n: int)
    requires 0 <= n <= kind.Scale() * kind.Max()
    ensures 0.0 <= n as real / kind.Scale() as real <= kind.Max() as real
  {}

  /** What is sent lies between 1.01 counts below the clamped quantity and 0.01 counts above it. */
  lemma Quantised(kind: Kind, x: real)
    ensures var n := Counts(kind, x);
            -0.01 <= InCounts(kind, Clamped(kind, x)) - InCounts(kind, Fixed(n, kind.Scale())) < 1.01
  {
    hide Counts, Clamped, Fixed, Float32.Round, InCounts;
    FixedError(kind, Counts(kind, x));
    RoundedProduct(kind, Clamped(kind, x));
    CountsOfClamped(kind, x);
  }

  lemma CountsOfClamped(kind: Kind, x: real)
    ensures Counts(kind, x) == TruncReal(Float32.Round(InCounts(kind, Clamped(kind, x))))
    ensures 0.0 <= x <= kind.Max() as real ==> Clamped(kind, x) == x
  {
    hide Float32.Round, TruncReal, InCounts;
  }

  lemma RoundedProduct(kind: Kind, c: real)
    requires 0.0 <= c <= kind.Max() as real
    ensures var z := InCounts(kind, c);
            0.0 <= Float32.Round(z) && -0.0039063 <= Float32.Round(z) - z <= 0.0039063
  {
    hide Float32.Round, Float32.Exp2, InCounts;
    var z := InCounts(kind, c);
    ScaledRange(kind, c);
    Float32.RoundBetween(z, 0, kind.Scale() * kind.Max());
    Float32.SmallPowers();
    Float32.ErrorBelow(z, -7);
  }

  /** The integer that exact arithmetic would send. */
  function ExactCounts(kind: Kind, x: real): int {
    TruncReal(InCounts(kind, Clamped(kind, x)))
  }

  /**
   In exact arithmetic a quantity loses less than one count and a count comes
   back as itself; the rounded product sends that count or the next one.
   */
  lemma AgainstExact(kind: Kind, x: real)
    ensures var n := ExactCounts(kind, x);
            && 0.0 <= InCounts(kind, Clamped(kind, x)) - n as real < 1.0
            && ExactCounts(kind, n as real / kind.Scale() as real) == n
            && (Counts(kind, x) == n || Counts(kind, x) == n + 1)
  {
    hide Counts, Clamped, Float32.Round, InCounts;
    var z, n := InCounts(kind, Clamped(kind, x)), ExactCounts(kind, x);
    ScaledRange(kind, Clamped(kind, x));
    CountsOfClamped(kind, x);
    Float32.RoundBetween(z, n, n + 1);
    ExactQuotient(kind, n);
  }

  lemma ExactQuotient(kind: Kind, n: int)
    requires 0 <= n <= kind.Scale() * kind.Max()
    ensures var q := n as real / kind.Scale() as real;
            Clamped(kind, q) == q && InCounts(kind, q) == n as real
  {
    RatioRange(kind, n);
    Float32.QuotientTimes(n as real, kind.Scale() as real);
  }

  /**
   A count that is read and sent again arrives as itself or as its
   predecessor: as itself exactly when the product of the quantity read and
   the scale falls short of the count by less than half a unit in its last
   place, or by exactly half on the way to an even digit.
   */
  lemma Recount(kind: Kind, n: int)
    requires 0 <= n <= kind.Scale() * kind.Max()
    ensures var q := Fixed(n, kind.Scale());
            var m := Counts(kind, q);
            && (m == n || m == n - 1)
            && (m == n <==> RoundsUpTo(InCounts(kind, q), n))
  {
    hide Float32.Round, Fixed, Counts, Clamped, RoundsUpTo, InCounts;
    var q := Fixed(n, kind.Scale());
    FixedError(kind, n);
    RoundedProduct(kind, q);
    CountsOfClamped(kind, q);
    TruncNear(Float32.Round(InCounts(kind, q)), n);
    ScaledRange(kind, q);
    RoundsUpToExactly(InCounts(kind, q), n);
  }

  lemma TruncNear(y: real, n: int)
    requires 0 <= n && 0.0 <= y && -0.01 <= y - n as real <= 0.01
    ensures TruncReal(y) == if y >= n as real then n else n - 1
  {}

  /** The nearest float to z is not below n. */
  ghost predicate RoundsUpTo(z: real, n: int) {
    var short := n as real - z;
    var u := Float32.Ulp(z);
    short * 2.0 < u || (short * 2.0 == u && (z / u).Floor % 2 == 1)
  }

  lemma RoundsUpToExactly(z: real, n: int)
    requires 0 <= n <= 100000 && 0.0 <= z && -0.006 <= z - n as real <= 0.006
    ensures Float32.Round(z) >= n as real <==> RoundsUpTo(z, n)
  {
    hide Float32.Exp2, Float32.Ulp;
    var u := Float32.Ulp(z);
    var k := CountInUnits(z, n);
    Float32.QuotientTimes(z, u);
    ComparedInUnits(z, u, n as real, k);
  }

  lemma CountInUnits(z: real, n: int) returns (k: int)
    requires 0.0 <= z <= 100001.0
    ensures k as real * Float32.Ulp(z) == n as real
  {
    hide Float32.Exp2, Float32.Ulp;
    Float32.One();
    Float32.UlpBelow(z, 0);
    k := Float32.WholeInUnits(n, z);
  }

  lemma ComparedInUnits(z: real, u: real, n: real, k: int)
    requires u > 0.0 && k as real * u == n
    ensures Float32.RoundEven(z / u) as real * u >= n
       <==> (n - z) * 2.0 < u || ((n - z) * 2.0 == u && (z / u).Floor % 2 == 1)
  {
    hide Float32.RoundEven;
    var q := z / u;
    Float32.QuotientTimes(z, u);
    ReachesWhole(q, k);
    Float32.ProductOrder(Float32.RoundEven(q) as real, k as real, u);
    HalfShort(k as real - q, u, n - z);
    assert (k as real - q) * u == n - z;
  }

  lemma ReachesWhole(q: real, k: int)
    ensures Float32.RoundEven(q) >= k
       <==> k as real - q < 0.5 || (k as real - q == 0.5 && q.Floor % 2 == 1)
  {}

  lemma HalfShort(d: real, u: real, short: real)
    requires u > 0.0
    ensures d * u == short ==> (d < 0.5 <==> short * 2.0 < u) && (d == 0.5 <==> short * 2.0 == u)
  {
    Float32.ProductOrder(d, 0.5, u);
    Float32.ProductOrder(0.5, d, u);
  }

  /** A count that does not come back: 251 thousandths of the servo range are sent again as 250. */
  lemma ServoCount251()
    ensures Counts(ServoPos, Fixed(251, 1000)) == 250
  {
    hide Float32.Round, Float32.Exp2;
    Float32.SmallPowers();
    Float32.RoundInteger(251);
    Float32.RoundAt(0.251, -25, 8422162);
    var q := 8422162.0 / 33554432.0;
    Float32.RoundAt(q * 1000.0, -16, 16449535);
  }

  /** A frame built for this controller is parsed back to the integer that was sent; frames for others are rejected. */
  lemma ParsesPayload(kind: Kind, vescId: U8, n: I32, data: seq<U8>)
    requires |data| == 8 && Payload(kind, vescId, n) <= data
    requires kind == ServoPos ==> 0 <= n <= 1000
    ensures Parsed(FrameId(kind, vescId), data)
         == if vescId == MCU_ID then (true, Some(Packet(kind, n))) else (false, None)
  {
    hide FrameId, Encoded, Decoded, Or, Fixed;
    forall k: Kind
      ensures FrameId(kind, vescId) == FrameId(k, MCU_ID) <==> kind == k && vescId == MCU_ID
    {
      if FrameId(kind, vescId) == FrameId(k, MCU_ID) {
        IdsDiffer(kind, vescId, k, MCU_ID);
      }
    }
    if kind == ServoPos {
      ServoBytes(n);
      assert data[3] == LowBytes(n)[0] && data[4] == LowBytes(n)[1];
    } else {
      DecodeEncode(n);
      assert data[0..4] == Encoded(n);
    }
  }

  /** The quantity in a fixed-point packet. */
  function Quantity(pkt: CmdPacket): real
    requires !pkt.RpmCmd?
  {
    match pkt
    case ServoPosCmd(x) => x
    case DutyCycleCmd(x) => x
    case CurrentCmd(x) => x
    case CurrentBrakeCmd(x) => x
    case PositionCmd(x) => x
  }

  /**
   A quantity sent to this controller comes back as a packet of its kind whose
   quantity lies within one count and rounding of the clamped one. Sending that
   quantity again makes the same payload, or that of the preceding count.
   */
  lemma FixedPointRoundTrip(kind: Kind, x: real, data: seq<U8>)
    requires kind != Rpm && |data| == 8 && Payload(kind, MCU_ID, Counts(kind, x)) <= data
    ensures var (ok, pkt) := Parsed(FrameId(kind, MCU_ID), data);
            var n := Counts(kind, x);
            && ok && pkt.Some? && pkt.value == Packet(kind, n)
            && Quantity(pkt.value) == Fixed(n, kind.Scale())
            && -0.01 <= InCounts(kind, Clamped(kind, x)) - InCounts(kind, Quantity(pkt.value)) < 1.01
            && var again := Counts(kind, Quantity(pkt.value));
               && (again == n || again == n - 1)
               && (again == n <==> RoundsUpTo(InCounts(kind, Quantity(pkt.value)), n))
  {
    hide Payload, Counts, FrameId, Parsed, Clamped, Fixed, RoundsUpTo, InCounts;
    Quantised(kind, x);
    Recount(kind, Counts(kind, x));
    ParsesPayload(kind, MCU_ID, Counts(kind, x), data);
  }

  /** Speeds come back exactly. */
  lemma RpmRoundTrip(rpm: I32, data: seq<U8>)
    requires |data| == 8 && Payload(Rpm, MCU_ID, rpm) <= data
    ensures Parsed(FrameId(Rpm, MCU_ID), data) == (true, Some(RpmCmd(rpm)))
  {
    ParsesPayload(Rpm, MCU_ID, rpm, data);
  }

  lemma ServoBytes(n: I32)
    requires 0 <= n <= 1000
    ensures Or(Shl(LowBytes(n)[0], 8), LowBytes(n)[1]) == n
  {
    hide Encoded, Or, Shl;
    EncodedDigits(n);
    JoinTwoBytes(LowBytes(n)[0], LowBytes(n)[1]);
  }
}
