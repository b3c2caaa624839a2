/** The CAN messages of the tbot: feedback is encoded, commands are decoded. */
module TbotMessenger {
  import opened CArith
  import opened Wrappers
  import opened CanBytes
  import Float32

  const TBOT_SUP_CMD_CAN_ID: U32 := 0x100
  const TBOT_PWM_CMD_CAN_ID: U32 := 0x101
  const TBOT_MOTOR_CMD_CAN_ID: U32 := 0x102
  const TBOT_MOTION_CMD_CAN_ID: U32 := 0x103

  const TBOT_SUPERVISED_STATE_DATA_CAN_ID: U32 := 0x200
  const TBOT_ENCODER_RAW_DATA_CAN_ID: U32 := 0x211
  const TBOT_ENCODER_FILTERED_DATA_CAN_ID: U32 := 0x212
  const TBOT_TARGET_RPM_DATA_CAN_ID: U32 := 0x213

  type I8 = x: int | -0x80 <= x < 0x80

  function ToI8(x: int): I8 {
    (x + 0x80) % 0x100 - 0x80
  }

  datatype TbotMsg =
    // commands
    | SupervisorCommand(supMode: U8)
    | PwmCommand(pwmLeft: I8, pwmRight: I8)
    | MotorCommand(rpmLeft: I32, rpmRight: I32)
    | MotionCommand(linear: real, angular: real)
    // feedback
    | SupervisedStateData(state: U8)
    | EncoderRawData(left: I32, right: I32)
    | EncoderFilteredData(left: I32, right: I32)
    | TargetRpmData(left: I32, right: I32)

  /** The message a caller hands over by pointer. */
  class MessageBuffer {
    var msg: TbotMsg

    constructor (msg: TbotMsg)
      ensures this.msg == msg
    {
      this.msg := msg;
    }
  }

  /** A word as hundredths: the conversion to float and the division each round. */
  function Hundredths(n: I32): real {
    Float32.Round(Float32.Round(n as real) / 100.0)
  }

  /** Identifier and payload of a feedback message; commands are not encoded. */
  function Frame(msg: TbotMsg): Option<(U32, seq<U8>)> {
    match msg
    case SupervisedStateData(state) => Some((TBOT_SUPERVISED_STATE_DATA_CAN_ID, [state]))
    case EncoderRawData(l, r) => Some((TBOT_ENCODER_RAW_DATA_CAN_ID, Encoded(l) + Encoded(r)))
    case EncoderFilteredData(l, r) => Some((TBOT_ENCODER_FILTERED_DATA_CAN_ID, Encoded(l) + Encoded(r)))
    case TargetRpmData(l, r) => Some((TBOT_TARGET_RPM_DATA_CAN_ID, Encoded(l) + Encoded(r)))
    case _ => None
  }

  /** The command in a frame. The length field is not looked at. */
  function Command(id: U32, data: seq<U8>): Option<TbotMsg>
    requires |data| == 8
  {
    if id == TBOT_SUP_CMD_CAN_ID then Some(SupervisorCommand(data[0]))
    else if id == TBOT_PWM_CMD_CAN_ID then Some(PwmCommand(ToI8(data[0]), ToI8(data[1])))
    else if id == TBOT_MOTOR_CMD_CAN_ID then Some(MotorCommand(Decoded(data[0..4]), Decoded(data[4..8])))
    else if id == TBOT_MOTION_CMD_CAN_ID then
      Some(MotionCommand(Hundredths(Decoded(data[0..4])), Hundredths(Decoded(data[4..8]))))
    else None
  }

  /** Writes as many bytes as the message has and leaves the others alone. */
  method EncodeCanMessage(msg: TbotMsg, frame: CanFrame)
    requires frame.data.Length == 8
    modifies frame, frame.data
    ensures match Frame(msg)
            case None => unchanged(frame) && unchanged(frame.data)
            case Some(f) =>
              && frame.id == f.0 && frame.dlc == |f.1| <= 8
              && frame.data[..] == f.1 + old(frame.data[|f.1|..])
  {
    hide Encoded;
    match msg
    case SupervisedStateData(state) =>
      frame.id := TBOT_SUPERVISED_STATE_DATA_CAN_ID;
      frame.dlc := 1;
      frame.data[0] := state;
    case EncoderRawData(left, right) =>
      frame.id := TBOT_ENCODER_RAW_DATA_CAN_ID;
      frame.dlc := 8;
      WritePair(left, right, frame.data);
    case EncoderFilteredData(left, right) =>
      frame.id := TBOT_ENCODER_FILTERED_DATA_CAN_ID;
      frame.dlc := 8;
      WritePair(left, right, frame.data);
    case TargetRpmData(left, right) =>
      frame.id := TBOT_TARGET_RPM_DATA_CAN_ID;
      frame.dlc := 8;
      WritePair(left, right, frame.data);
    case _ =>
  }

  method WritePair(left: I32, right: I32, data: array<U8>)
    requires data.Length == 8
    modifies data
    ensures data[..] == Encoded(left) + Encoded(right)
  {
    hide ByteAt;
    data[0], data[1], data[2], data[3] := ByteAt(left, 3), ByteAt(left, 2), ByteAt(left, 1), ByteAt(left, 0);
    data[4], data[5], data[6], data[7] := ByteAt(right, 3), ByteAt(right, 2), ByteAt(right, 1), ByteAt(right, 0);
  }

  /** False, and the message untouched, for an unknown identifier. */
  method DecodeCanMessage(frame: CanFrame, buffer: MessageBuffer) returns (ret: bool)
    requires frame.data.Length == 8
    modifies buffer
    ensures ret == Command(frame.id, frame.data[..]).Some?
    ensures buffer.msg == Command(frame.id, frame.data[..]).GetOr(old(buffer.msg))
  {
    hide Decoded;
    ret := true;
    var data := frame.data[..];
    if frame.id == TBOT_SUP_CMD_CAN_ID {
      buffer.msg := SupervisorCommand(data[0]);
    } else if frame.id == TBOT_PWM_CMD_CAN_ID {
      buffer.msg := PwmCommand(ToI8(data[0]), ToI8(data[1]));
    } else if frame.id == TBOT_MOTOR_CMD_CAN_ID {
      buffer.msg := MotorCommand(Decoded(data[0..4]), Decoded(data[4..8]));
    } else if frame.id == TBOT_MOTION_CMD_CAN_ID {
      buffer.msg := MotionCommand(Hundredths(Decoded(data[0..4])), Hundredths(Decoded(data[4..8])));
    } else {
      ret := false;
    }
  }

  /** A pair of speeds sent as feedback of any kind reads back as the same pair of a motor command. */
  lemma PairRoundTrip(left: I32, right: I32)
    ensures forall msg ::
      msg in [EncoderRawData(left, right), EncoderFilteredData(left, right), TargetRpmData(left, right)] ==>
      && Frame(msg).Some? && |Frame(msg).value.1| == 8
      && Command(TBOT_MOTOR_CMD_CAN_ID, Frame(msg).value.1) == Some(MotorCommand(left, right))
  {
    hide Encoded, Decoded;
    DecodeEncode(left);
    DecodeEncode(right);
    var data := Encoded(left) + Encoded(right);
    assert data[0..4] == Encoded(left) && data[4..8] == Encoded(right);
  }

  /** Any eight bytes read as a motor command and sent back as feedback are the same bytes. */
  lemma BytesRoundTrip(data: seq<U8>)
    requires |data| == 8
    ensures var cmd := Command(TBOT_MOTOR_CMD_CAN_ID, data);
            && cmd.Some? && cmd.value.MotorCommand?
            && Frame(TargetRpmData(cmd.value.rpmLeft, cmd.value.rpmRight)) == Some((TBOT_TARGET_RPM_DATA_CAN_ID, data))
  {
    hide Encoded, Decoded;
    EncodeDecode(data[0..4]);
    EncodeDecode(data[4..8]);
    assert data == data[0..4] + data[4..8];
  }

  // ---------- the message tables ----------

  /** Which bytes of a command frame are what: words first to last, signed bytes in order, other identifiers nothing. */
  lemma CommandTable(l: I32, r: I32, id: U32, data: seq<U8>)
    requires |data| == 8
    ensures Command(0x100, data) == Some(SupervisorCommand(data[0]))
    ensures var cmd := Command(0x101, data);
            && cmd.Some? && cmd.value.PwmCommand?
            && (data[0] - cmd.value.pwmLeft) % 0x100 == 0 && (data[1] - cmd.value.pwmRight) % 0x100 == 0
    ensures Command(0x102, Encoded(l) + Encoded(r)) == Some(MotorCommand(l, r))
    ensures Command(0x103, Encoded(l) + Encoded(r)) == Some(MotionCommand(Hundredths(l), Hundredths(r)))
    ensures Command(id, data).Some? <==> 0x100 <= id <= 0x103
  {
    hide Encoded, Decoded, Hundredths;
    DecodeEncode(l);
    DecodeEncode(r);
    var words := Encoded(l) + Encoded(r);
    assert words[0..4] == Encoded(l) && words[4..8] == Encoded(r);
  }

  /** Which identifier each feedback message has, and that its words go out first to last. */
  lemma FeedbackTable(l: I32, r: I32, state: U8, cmd: TbotMsg)
    ensures Frame(SupervisedStateData(state)) == Some((0x200, [state]))
    ensures Frame(EncoderRawData(l, r)) == Some((0x211, Encoded(l) + Encoded(r)))
    ensures Frame(EncoderFilteredData(l, r)) == Some((0x212, Encoded(l) + Encoded(r)))
    ensures Frame(TargetRpmData(l, r)) == Some((0x213, Encoded(l) + Encoded(r)))
    ensures cmd.SupervisorCommand? || cmd.PwmCommand? || cmd.MotorCommand? || cmd.MotionCommand? ==> Frame(cmd) == None
  {}

  /** The bytes of a motion command that drives forward at one metre per second. */
  lemma DriveForward()
    ensures Command(0x103, [0, 0, 0, 100, 0, 0, 0, 0]) == Some(MotionCommand(1.0, 0.0))
  {
    hide Encoded, Command;
    EncodedDigits(100);
    EncodedDigits(0);
    var data: seq<U8> := [0, 0, 0, 100, 0, 0, 0, 0];
    assert data == Encoded(100) + Encoded(0);
    CommandTable(100, 0, 0, data);
    OneAndZero();
  }

  lemma OneAndZero()
    ensures Hundredths(100) == 1.0 && Hundredths(0) == 0.0
  {
    hide Float32.Round;
    Float32.RoundInteger(100);
    Float32.RoundInteger(0);
    Float32.RoundInteger(1);
  }

  /** Whatever the word, the float is within 3 of a hundredth of it. */
  lemma HundredthsNear(n: I32)
    ensures -3.0 <= Hundredths(n) - n as real / 100.0 <= 3.0
  {
    hide Float32.Round, Float32.Exp2;
    assert Float32.Exp2(8) == 256.0 && Float32.Exp2(1) == 2.0 by { Float32.FirstPowers(); }
    Float32.ErrorBelow(n as real, 8);
    Float32.ErrorBelow(Float32.Round(n as real) / 100.0, 1);
  }

  // ---------- motion commands: how far the float fields tell words apart ----------

  const LAST_DISTINCT := 13107201

  /** The rounding error of small words, and the values around the end of the distinct range. */
  lemma SmallHundredths(n: I32)
    requires -13107200 < n < 13107200
    ensures -1.0 / 256.0 <= Hundredths(n) - n as real / 100.0 <= 1.0 / 256.0
  {
    hide Float32.Round, Float32.Exp2;
    Float32.SmallPowers();
    Float32.RoundInteger(n);
    Float32.ErrorBelow(n as real / 100.0, -7);
  }

  lemma HundredthsAtEnd()
    ensures Hundredths(13107200) == 131072.0 && Hundredths(-13107200) == -131072.0
    ensures Hundredths(13107201) == 131072.015625 && Hundredths(-13107201) == -131072.015625
    ensures Hundredths(13107202) == 131072.015625
  {
    hide Float32.Round, Float32.Exp2;
    Float32.SmallPowers();
    Float32.RoundInteger(13107200);
    Float32.RoundInteger(-13107200);
    Float32.RoundInteger(131072);
    Float32.RoundInteger(-131072);
    Float32.RoundInteger(13107201);
    Float32.RoundAt(131072.01, -6, 8388609);
    Float32.RoundInteger(-13107201);
    Float32.RoundAt(-131072.01, -6, -8388609);
    Float32.RoundInteger(13107202);
    Float32.RoundAt(131072.02, -6, 8388609);
  }

  /** The conversion rounds before the division does: a hundredth of this word itself would round one unit up. */
  lemma BothRoundingsCount()
    ensures Hundredths(16777217) == 10737418.0 / 64.0 && Float32.Round(167772.17) == 10737419.0 / 64.0
  {
    hide Float32.Round, Float32.Exp2;
    Float32.FirstPowers();
    Float32.SmallPowers();
    Float32.RoundAt(16777217.0, 1, 8388608);
    Float32.RoundAt(167772.16, -6, 10737418);
    Float32.RoundAt(167772.17, -6, 10737419);
  }

  /** Words of magnitude up to limit are told apart, and in the order of the words. */
  ghost predicate ToldApart(limit: int) {
    forall a: I32, b: I32 :: -limit <= a < b <= limit ==> Hundredths(a) < Hundredths(b)
  }

  lemma InOrder(a: I32, b: I32)
    requires -LAST_DISTINCT <= a < b <= LAST_DISTINCT
    ensures Hundredths(a) < Hundredths(b)
  {
    hide Hundredths;
    HundredthsAtEnd();
    if -13107200 < a < 13107200 {
      SmallHundredths(a);
    }
    if -13107200 < b < 13107200 {
      SmallHundredths(b);
    }
  }

  /** Motion words are told apart exactly up to 13107201 hundredths; the next word reads like that one. */
  lemma MotionWordsToldApart(limit: int)
    requires 0 <= limit < 0x8000_0000
    ensures ToldApart(limit) <==> limit <= LAST_DISTINCT
  {
    hide Hundredths;
    if limit <= LAST_DISTINCT {
      forall a: I32, b: I32 | -limit <= a < b <= limit
        ensures Hundredths(a) < Hundredths(b)
      {
        InOrder(a, b);
      }
    } else {
      HundredthsAtEnd();
    }
  }

  /** Two different payloads of a motion command that read as the same motion. */
  lemma CollidingPayloads()
    ensures Command(TBOT_MOTION_CMD_CAN_ID, [0x00, 0xC8, 0x00, 0x01, 0, 0, 0, 0])
         == Command(TBOT_MOTION_CMD_CAN_ID, [0x00, 0xC8, 0x00, 0x02, 0, 0, 0, 0])
  {
    hide Hundredths, Decoded;
    HundredthsAtEnd();
    var a: seq<U8>, b: seq<U8> := [0x00, 0xC8, 0x00, 0x01, 0, 0, 0, 0], [0x00, 0xC8, 0x00, 0x02, 0, 0, 0, 0];
    DecodedWord(a[0..4]);
    DecodedWord(b[0..4]);
    assert a[4..8] == b[4..8];
  }
}
