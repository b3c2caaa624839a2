/**
 The SBUS receiver: a decoder fed one byte at a time, and the parser of whole
 byte strings that it implements.
 */
module Sbus {
  import opened CArith
  import opened Wrappers
  import opened Bits
  import opened Nonlinear
  import opened SbusChannels

  const SBUS_FRAME_HEAD: U8 := 0x0f
  const SBUS_FRAME_TAIL: U8 := 0x00

  datatype DecodeState = WaitForSof | WaitForPayload | WaitForEof

  // ---------- the decoder as a value ----------

  datatype Decoder = Decoder(state: DecodeState, indexer: nat, data: Frame) {

    /** What holds between two bytes, whatever was received. */
    ghost predicate Valid() {
      match state
      case WaitForSof => true
      case WaitForPayload => indexer <= SBUS_FRAME_LENGTH - 3 && data[0] == SBUS_FRAME_HEAD
      case WaitForEof => indexer == SBUS_FRAME_LENGTH - 2 && data[0] == SBUS_FRAME_HEAD
    }

    /** The bytes received since the start of the frame in progress. */
    ghost function Pending(): (p: seq<U8>)
      requires Valid()
    {
      if state == WaitForSof then [] else data[..indexer + 1]
    }

    /** One byte: the next state, and the frame if the byte completes one. */
    ghost function Next(ch: U8): (Decoder, Option<Frame>)
      requires Valid()
    {
      match state
      case WaitForSof =>
        var cleared := seq(SBUS_FRAME_LENGTH, _ => 0);
        if ch == SBUS_FRAME_HEAD then (Decoder(WaitForPayload, 0, cleared[0 := ch]), None)
        else (Decoder(WaitForSof, 0, cleared), None)
      case WaitForPayload =>
        var full := indexer + 1 == SBUS_FRAME_LENGTH - 2;
        (Decoder(if full then WaitForEof else WaitForPayload, indexer + 1, data[indexer + 1 := ch]), None)
      case WaitForEof =>
        if ch == SBUS_FRAME_TAIL then
          var frame := data[indexer + 1 := ch];
          (Decoder(WaitForSof, indexer + 1, frame), Some(frame))
        else (Decoder(WaitForSof, indexer, data), None)
    }

    /** The state after a byte string. */
    ghost function After(bytes: seq<U8>): (d: Decoder)
      requires Valid()
      ensures d.Valid()
      decreases |bytes|
    {
      if bytes == [] then this else Next(bytes[0]).0.After(bytes[1..])
    }

    /** The frames completed in a byte string. */
    ghost function Emitted(bytes: seq<U8>): seq<Frame>
      requires Valid()
      decreases |bytes|
    {
      if bytes == [] then []
      else
        var (next, done) := Next(bytes[0]);
        (if done.Some? then [done.value] else []) + next.Emitted(bytes[1..])
    }
  }

  /** Feeding in chunks is feeding at once. */
  lemma {:induction false} FeedChunks(d: Decoder, a: seq<U8>, b: seq<U8>)
    requires d.Valid()
    ensures d.After(a + b) == d.After(a).After(b)
    ensures d.Emitted(a + b) == d.Emitted(a) + d.After(a).Emitted(b)
    decreases |a|
  {
    if a == [] {
      assert a + b == b;
    } else {
      assert (a + b)[0] == a[0] && (a + b)[1..] == a[1..] + b;
      FeedChunks(d.Next(a[0]).0, a[1..], b);
    }
  }

  // ---------- the parser of whole strings ----------

  /** Skip to a head byte, take 25 bytes, keep them if they end in the tail byte, go on behind them. */
  ghost function Parse(bytes: seq<U8>): seq<Frame>
    decreases |bytes|
  {
    if bytes == [] then []
    else if bytes[0] != SBUS_FRAME_HEAD then Parse(bytes[1..])
    else if |bytes| < SBUS_FRAME_LENGTH then []
    else if bytes[SBUS_FRAME_LENGTH - 1] == SBUS_FRAME_TAIL then
      [bytes[..SBUS_FRAME_LENGTH]] + Parse(bytes[SBUS_FRAME_LENGTH..])
    else Parse(bytes[SBUS_FRAME_LENGTH..])
  }

  /** One byte moves from the input to the pending bytes and changes nothing else. */
  lemma NextParses(d: Decoder, ch: U8, rest: seq<U8>)
    requires d.Valid()
    ensures var (next, done) := d.Next(ch);
            && next.Valid()
            && Parse(d.Pending() + [ch] + rest)
            == (if done.Some? then [done.value] else []) + Parse(next.Pending() + rest)
  {
    var (next, done) := d.Next(ch);
    var all := d.Pending() + [ch] + rest;
    match d.state
    case WaitForSof =>
      assert all == [ch] + rest;
      assert next.Pending() + rest == if ch == SBUS_FRAME_HEAD then [ch] + rest else rest;
    case WaitForPayload =>
      assert next.Pending() == d.Pending() + [ch];
    case WaitForEof =>
      assert all[0] == SBUS_FRAME_HEAD && |all| >= SBUS_FRAME_LENGTH;
      assert all[SBUS_FRAME_LENGTH..] == rest == next.Pending() + rest;
      if ch == SBUS_FRAME_TAIL {
        assert all[..SBUS_FRAME_LENGTH] == done.value;
      }
  }

  /** The decoder refines the parser, from any state it can be in. */
  lemma {:induction false} FeedRefinesParse(d: Decoder, bytes: seq<U8>)
    requires d.Valid()
    ensures d.Emitted(bytes) == Parse(d.Pending() + bytes)
    decreases |bytes|
  {
    if bytes == [] {
      assert Parse(d.Pending()) == [];
      assert d.Pending() + bytes == d.Pending();
    } else {
      NextParses(d, bytes[0], bytes[1..]);
      assert d.Pending() + bytes == d.Pending() + [bytes[0]] + bytes[1..];
      FeedRefinesParse(d.Next(bytes[0]).0, bytes[1..]);
    }
  }

  ghost function Concat(chunks: seq<seq<U8>>): seq<U8> {
    if chunks == [] then [] else chunks[0] + Concat(chunks[1..])
  }

  /** The frames emitted while the chunks arrive one after the other. */
  ghost function EmittedChunks(d: Decoder, chunks: seq<seq<U8>>): seq<Frame>
    requires d.Valid()
    decreases |chunks|
  {
    if chunks == [] then [] else d.Emitted(chunks[0]) + EmittedChunks(d.After(chunks[0]), chunks[1..])
  }

  lemma EmitsNothing(d: Decoder)
    requires d.Valid()
    ensures d.Emitted([]) == []
  {}

  /** However the bytes are cut into chunks, the decoder emits what the parser finds in the whole. */
  lemma {:induction false} ChunksAreParsed(d: Decoder, chunks: seq<seq<U8>>)
    requires d.Valid()
    ensures EmittedChunks(d, chunks) == Parse(d.Pending() + Concat(chunks))
    decreases |chunks|
  {
    hide Decoder.Valid, Decoder.Pending, Decoder.Emitted, Decoder.After, Parse;
    FeedRefinesParse(d, Concat(chunks));
    if chunks == [] {
      EmitsNothing(d);
    } else {
      FeedChunks(d, chunks[0], Concat(chunks[1..]));
      ChunksAreParsed(d.After(chunks[0]), chunks[1..]);
      FeedRefinesParse(d.After(chunks[0]), Concat(chunks[1..]));
    }
  }

  /**
   The index into the 25-byte buffer: whatever it starts with, every byte leaves
   it in 0..24, and at 24 exactly when the byte completes a frame.
   */
  lemma IndexInBuffer(d: Decoder, bytes: seq<U8>, ch: U8)
    requires d.Valid()
    ensures var e := d.After(bytes + [ch]);
            && e.indexer <= SBUS_FRAME_LENGTH - 1
            && (e.indexer == SBUS_FRAME_LENGTH - 1 <==> |d.Emitted(bytes + [ch])| > |d.Emitted(bytes)|)
  {
    FeedChunks(d, bytes, [ch]);
    var before := d.After(bytes);
    assert [ch][1..] == [];
    assert before.After([ch]) == before.Next(ch).0;
  }

  // ---------- resynchronisation ----------

  ghost predicate WellFormed(frame: Frame) {
    frame[0] == 0x0f && frame[24] == 0x00
  }

  ghost predicate NoHead(bytes: seq<U8>) {
    forall i :: 0 <= i < |bytes| ==> bytes[i] != 0x0f
  }

  /** Bytes still missing until the decoder looks for a head byte again. */
  ghost function Missing(d: Decoder): nat
    requires d.Valid()
  {
    if d.state == WaitForSof then 0 else SBUS_FRAME_LENGTH - 1 - d.indexer
  }

  /** The decoder is back at WaitForSof exactly when the gap outlasts the frame in progress. */
  lemma {:induction false} GapResynchronises(d: Decoder, gap: seq<U8>)
    requires d.Valid() && NoHead(gap)
    ensures d.After(gap).state == WaitForSof <==> |gap| >= Missing(d)
    ensures Missing(d) <= 24
    decreases |gap|
  {
    if gap != [] {
      GapResynchronises(d.Next(gap[0]).0, gap[1..]);
    }
  }

  /** Frames, each behind a gap that holds no head byte. */
  ghost function Transmission(gaps: seq<seq<U8>>, frames: seq<Frame>): seq<U8>
    requires |gaps| == |frames|
  {
    if frames == [] then [] else gaps[0] + frames[0] + Transmission(gaps[1..], frames[1..])
  }

  lemma {:induction false} ParseSkipsGap(gap: seq<U8>, rest: seq<U8>)
    requires NoHead(gap)
    ensures Parse(gap + rest) == Parse(rest)
    decreases |gap|
  {
    if gap == [] {
      assert gap + rest == rest;
    } else {
      assert (gap + rest)[1..] == gap[1..] + rest;
      ParseSkipsGap(gap[1..], rest);
    }
  }

  /** 25 bytes from a head byte on that do not end in the tail byte are dropped as a whole. */
  lemma BadFrameDropped(d: Decoder, gap: seq<U8>, bad: Frame, rest: seq<U8>)
    requires d.state == WaitForSof && NoHead(gap) && bad[0] == 0x0f && bad[24] != 0x00
    ensures d.After(gap + bad).state == WaitForSof
    ensures d.Emitted(gap + (bad + rest)) == d.Emitted(rest)
  {
    hide Parse, Decoder.Emitted, Decoder.Next;
    ParseSkipsGap(gap, bad + rest);
    ParseDropsBad(bad, rest);
    WaitingParses(d, gap + (bad + rest));
    WaitingParses(d, rest);
    FeedChunks(d, gap, bad);
    GapResynchronises(d, gap);
    StatesInFrame(d.After(gap), bad, SBUS_FRAME_LENGTH);
    assert bad[..SBUS_FRAME_LENGTH] == bad;
  }

  lemma ParseDropsBad(bad: Frame, rest: seq<U8>)
    requires bad[0] == 0x0f && bad[24] != 0x00
    ensures Parse(bad + rest) == Parse(rest)
  {
    assert (bad + rest)[SBUS_FRAME_LENGTH..] == rest;
  }

  lemma WaitingParses(d: Decoder, bytes: seq<U8>)
    requires d.state == WaitForSof
    ensures d.Emitted(bytes) == Parse(bytes)
  {
    FeedRefinesParse(d, bytes);
    assert d.Pending() + bytes == bytes;
  }

  /** Where the decoder stands inside a frame. */
  lemma {:induction false} StatesInFrame(d: Decoder, frame: Frame, n: nat)
    requires d.state == WaitForSof && frame[0] == 0x0f && 1 <= n <= SBUS_FRAME_LENGTH
    ensures var e := d.After(frame[..n]);
            if n < 24 then e.state == WaitForPayload && e.indexer == n - 1
            else if n == 24 then e.state == WaitForEof
            else e.state == WaitForSof
    decreases n
  {
    if n == 1 {
      assert frame[..1][1..] == [];
    } else {
      StatesInFrame(d, frame, n - 1);
      assert frame[..n] == frame[..n - 1] + [frame[n - 1]];
      FeedChunks(d, frame[..n - 1], [frame[n - 1]]);
      assert [frame[n - 1]][1..] == [];
    }
    assert frame[..SBUS_FRAME_LENGTH] == frame;
  }

  lemma {:induction false} ParseTransmission(gaps: seq<seq<U8>>, frames: seq<Frame>)
    requires |gaps| == |frames|
    requires forall i :: 0 <= i < |gaps| ==> NoHead(gaps[i])
    requires forall i :: 0 <= i < |frames| ==> WellFormed(frames[i])
    ensures Parse(Transmission(gaps, frames)) == frames
    decreases |frames|
  {
    if frames != [] {
      var rest := Transmission(gaps[1..], frames[1..]);
      var all: seq<U8> := frames[0] + rest;
      assert gaps[0] + frames[0] + rest == gaps[0] + all;
      ParseSkipsGap(gaps[0], all);
      assert all[..SBUS_FRAME_LENGTH] == frames[0] && all[SBUS_FRAME_LENGTH..] == rest;
      ParseTransmission(gaps[1..], frames[1..]);
    }
  }

  /**
   From any state, a gap of 24 bytes without a head byte realigns the decoder:
   every later frame is delivered, in order.
   */
  lemma FramesAfterGap(d: Decoder, gap: seq<U8>, gaps: seq<seq<U8>>, frames: seq<Frame>)
    requires d.Valid() && NoHead(gap) && |gap| >= 24
    requires |gaps| == |frames|
    requires forall i :: 0 <= i < |gaps| ==> NoHead(gaps[i])
    requires forall i :: 0 <= i < |frames| ==> WellFormed(frames[i])
    ensures d.Emitted(gap + Transmission(gaps, frames)) == d.Emitted(gap) + frames
  {
    GapResynchronises(d, gap);
    var mid := d.After(gap);
    FeedChunks(d, gap, Transmission(gaps, frames));
    FeedRefinesParse(mid, Transmission(gaps, frames));
    assert mid.Pending() + Transmission(gaps, frames) == Transmission(gaps, frames);
    ParseTransmission(gaps, frames);
  }

  // ---------- the decoder as the source keeps it ----------

  class SbusDecoder {
    var decodeState: DecodeState
    const data: array<U8>
    var indexer: nat

    /** Only the state is initialised; buffer and index hold whatever was in memory. */
    constructor (junk: Frame, index: nat)
      ensures Valid() && fresh(data) && decodeState == WaitForSof
    {
      data := new U8[SBUS_FRAME_LENGTH](i requires 0 <= i < SBUS_FRAME_LENGTH => junk[i]);
      decodeState, indexer := WaitForSof, index;
    }

    ghost function Value(): Decoder
      reads this, data
      requires data.Length == SBUS_FRAME_LENGTH
    {
      Decoder(decodeState, indexer, data[..])
    }

    ghost predicate Valid()
      reads this, data
    {
      data.Length == SBUS_FRAME_LENGTH && Value().Valid()
    }

    method Decode(ch: U8, msg: SbusMessage) returns (newFrameParsed: bool)
      requires Valid() && msg.channels.Length == SBUS_CHANNEL_NUMBER
      modifies this, data, msg, msg.channels
      ensures Valid() && Value() == old(Value()).Next(ch).0
      ensures newFrameParsed == old(Value()).Next(ch).1.Some?
      ensures newFrameParsed ==> msg.Holds(old(Value()).Next(ch).1.value)
      ensures !newFrameParsed ==> unchanged(msg) && unchanged(msg.channels)
    {
      newFrameParsed := false;
      match decodeState {
        case WaitForSof =>
          indexer := 0;
          forall i | 0 <= i < SBUS_FRAME_LENGTH {
            data[i] := 0;
          }
          if ch == SBUS_FRAME_HEAD {
            decodeState := WaitForPayload;
            data[indexer] := ch;
          }
        case WaitForPayload =>
          indexer := indexer + 1;
          data[indexer] := ch;
          if indexer == SBUS_FRAME_LENGTH - 2 {
            decodeState := WaitForEof;
          }
        case WaitForEof =>
          if ch == SBUS_FRAME_TAIL {
            newFrameParsed := true;
            indexer := indexer + 1;
            data[indexer] := ch;
            BuildMessage(data, msg);
            decodeState := WaitForSof;
          } else {
            decodeState := WaitForSof;
          }
      }
    }
  }

  /** The sixteen channel expressions and the flag byte. */
  method BuildMessage(buf: array<U8>, msg: SbusMessage)
    requires buf.Length == SBUS_FRAME_LENGTH && msg.channels.Length == SBUS_CHANNEL_NUMBER
    modifies msg, msg.channels
    ensures msg.Holds(buf[..])
  {
    hide TwoBytes, ThreeBytes, Unpack, And;
    var b := buf[..];
    BuildChannels0To7(b, msg.channels);
    BuildChannels8To15(b, msg.channels);
    assert msg.channels[..16] == ChannelExpressions(b);
    ExpressionsUnpack(b);

    msg.channels[16] := And(b[23], 0x80);
    msg.channels[17] := And(b[23], 0x40);
    msg.frameLoss := And(b[23], 0x20) != 0;
    msg.faultProtection := And(b[23], 0x10) != 0;
    assert msg.channels[..16] == ChannelExpressions(b);
    assert buf[..] == b;
  }

  /** The two digital channels are the upper bits of the flag byte in place, the two warnings the next two bits. */
  lemma FlagsInNumbers(msg: SbusMessage, frame: Frame)
    requires msg.channels.Length == SBUS_CHANNEL_NUMBER && msg.Holds(frame)
    ensures msg.channels[16] == frame[23] / 0x80 * 0x80
    ensures msg.channels[17] == frame[23] / 0x40 % 2 * 0x40
    ensures msg.frameLoss <==> frame[23] / 0x20 % 2 == 1
    ensures msg.faultProtection <==> frame[23] / 0x10 % 2 == 1
  {
    hide Unpack, And;
    BitInPlace(frame[23], 7);
    BitInPlace(frame[23], 6);
    BitInPlace(frame[23], 5);
    BitInPlace(frame[23], 4);
    SmallPowers();
  }

  lemma SmallPowers()
    ensures Pow2(4) == 0x10 && Pow2(5) == 0x20 && Pow2(6) == 0x40 && Pow2(7) == 0x80
  {
    assert Pow2(4) == 0x10;
  }

  lemma DoubledBit(bit: int, p: nat)
    ensures 2 * (bit * p) == bit * (2 * p)
  {}

  /** Masking one bit of a value. */
  lemma {:induction false} BitInPlace(x: nat, k: nat)
    ensures And(x, Pow2(k)) == x / Pow2(k) % 2 * Pow2(k)
    decreases k
  {
    if k == 0 {
      AndOddMask(x, 0);
      AndZero(x / 2);
    } else {
      hide And;
      var p := Pow2(k - 1);
      AndEvenMask(x, p);
      BitInPlace(x / 2, k - 1);
      DivNested(x, 2, p);
      DoubledBit(x / 2 / p % 2, p);
    }
  }

  method BuildChannels0To7(b: Frame, channels: array<U16>)
    requires channels.Length == SBUS_CHANNEL_NUMBER
    modifies channels
    ensures forall k :: 0 <= k < 8 ==> channels[k] == ChannelExpressions(b)[k]
    ensures forall k :: 8 <= k < SBUS_CHANNEL_NUMBER ==> channels[k] == old(channels[k])
  {
    hide TwoBytes, ThreeBytes;
    channels[0] := TwoBytes(b, 1, 0);
    channels[1] := TwoBytes(b, 2, 3);
    channels[2] := ThreeBytes(b, 3, 6);
    channels[3] := TwoBytes(b, 5, 1);
    channels[4] := TwoBytes(b, 6, 4);
    channels[5] := ThreeBytes(b, 7, 7);
    channels[6] := TwoBytes(b, 9, 2);
    channels[7] := TwoBytes(b, 10, 5);
  }

  method BuildChannels8To15(b: Frame, channels: array<U16>)
    requires channels.Length == SBUS_CHANNEL_NUMBER
    modifies channels
    ensures forall k :: 8 <= k < 16 ==> channels[k] == ChannelExpressions(b)[k]
    ensures forall k :: 0 <= k < 8 ==> channels[k] == old(channels[k])
  {
    hide TwoBytes, ThreeBytes;
    channels[8] := TwoBytes(b, 12, 0);
    channels[9] := TwoBytes(b, 13, 3);
    channels[10] := ThreeBytes(b, 14, 6);
    channels[11] := TwoBytes(b, 16, 1);
    channels[12] := TwoBytes(b, 17, 4);
    channels[13] := ThreeBytes(b, 18, 7);
    channels[14] := TwoBytes(b, 20, 2);
    channels[15] := TwoBytes(b, 21, 5);
  }
}
