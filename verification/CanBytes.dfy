/**
 CAN frames, and 32-bit integers as four bytes, most significant first, the way
 the codecs take them apart with masks and shifts and put them together with `|`.
 */
module CanBytes {
  import opened CArith
  import opened Nonlinear
  import opened Bits
  import Digits

  /** A frame whose fields the codecs fill in; only `dlc` bytes of the data are sent. */
  class CanFrame {
    var id: U32
    var dlc: nat
    const data: array<U8>

    constructor ()
      ensures data.Length == 8 && fresh(data)
    {
      id, dlc := 0, 0;
      data := new U8[8];
    }
  }

  /** Byte k of a word, as the encoders extract it. */
  function ByteAt(x: I32, k: nat): (b: U8)
    requires k <= 3
  {
    MaskedByte(ToU32(x), 8 * k);
    Shr(And(ToU32(x), Shl(0xff, 8 * k)), 8 * k)
  }

  function Encoded(x: I32): (s: seq<U8>)
    ensures |s| == 4
  {
    [ByteAt(x, 3), ByteAt(x, 2), ByteAt(x, 1), ByteAt(x, 0)]
  }

  /** Four bytes joined into a signed word, as the decoders do it. */
  function Decoded(s: seq<U8>): I32
    requires |s| == 4
  {
    ToI32(Or(Or(Or(Shl(s[0], 24), Shl(s[1], 16)), Shl(s[2], 8)), s[3]))
  }

  // ---------- masks and ors against positional notation ----------

  lemma {:induction false} AndShiftedMask(x: nat, m: nat, k: nat)
    ensures And(x, Shl(m, k)) == Shl(And(Shr(x, k), m), k)
    decreases k
  {
    hide Shl, Shr, And;
    if k == 0 {
      ShiftByZero(x);
      ShiftByZero(m);
      ShiftByZero(And(x, m));
    } else {
      ShiftStep(x, k);
      ShiftStep(m, k);
      ShiftStep(And(Shr(x, k), m), k);
      AndEvenMask(x, Shl(m, k - 1));
      AndShiftedMask(x / 2, m, k - 1);
    }
  }

  lemma ShiftByZero(x: nat)
    ensures Shl(x, 0) == x && Shr(x, 0) == x
  {}

  lemma ShiftStep(x: nat, k: nat)
    requires k > 0
    ensures Shl(x, k) == 2 * Shl(x, k - 1) && Shr(x, k) == Shr(x / 2, k - 1)
  {
    var p := Pow2(k - 1);
    DivNested(x, 2, p);
    Assoc(x, 2, p);
    Assoc(2, x, p);
  }

  lemma ShiftBack(x: nat, k: nat)
    ensures Shr(Shl(x, k), k) == x
  {
    DivModUnique(x * Pow2(k), Pow2(k), x, 0);
  }

  /** Masking a byte in place and shifting it down is a digit in base 256. */
  lemma MaskedByte(w: nat, k: nat)
    ensures Shr(And(w, Shl(0xff, k)), k) == Shr(w, k) % 0x100 < 0x100
  {
    hide Shl, Shr, And;
    AndShiftedMask(w, 0xff, k);
    assert Pow2(8) == 0x100;
    AndLowMask(Shr(w, k), 8);
    ShiftBack(Shr(w, k) % 0x100, k);
  }

  /** The value of four bytes, most significant first. */
  function Word(a: int, b: int, c: int, d: int): int {
    0x100_0000 * a + 0x1_0000 * b + 0x100 * c + d
  }

  function WordOf(s: seq<U8>): U32
    requires |s| == 4
  {
    Word(s[0], s[1], s[2], s[3])
  }

  lemma EncodedDigits(x: I32)
    ensures var w, s := ToU32(x), Encoded(x);
            && s[0] == w / 0x100_0000 && s[1] == w / 0x1_0000 % 0x100
            && s[2] == w / 0x100 % 0x100 && s[3] == w % 0x100
  {
    hide ToU32, ByteAt, Pow2;
    ByteIsDigit(x, 3);
    ByteIsDigit(x, 2);
    ByteIsDigit(x, 1);
    ByteIsDigit(x, 0);
    PowersOf256();
  }

  lemma ByteIsDigit(x: I32, k: nat)
    requires k <= 3
    ensures ByteAt(x, k) == ToU32(x) / Pow2(8 * k) % 0x100
  {
    hide Shl, And, ToU32;
    MaskedByte(ToU32(x), 8 * k);
  }

  lemma PowersOf256()
    ensures Pow2(0) == 1 && Pow2(8) == 0x100 && Pow2(16) == 0x1_0000 && Pow2(24) == 0x100_0000
  {
    Digits.Pow2Add(8, 8);
    Digits.Pow2Add(16, 8);
    assert Pow2(8) == 0x100;
  }

  lemma EncodedWord(x: I32)
    ensures WordOf(Encoded(x)) == ToU32(x)
  {
    hide Encoded, ToU32;
    EncodedDigits(x);
    WordOfDigits(ToU32(x));
  }

  lemma WordOfDigits(w: U32)
    ensures Word(w / 0x100_0000, w / 0x1_0000 % 0x100, w / 0x100 % 0x100, w % 0x100) == w
  {
    DivNested(w, 0x100, 0x100);
    DivNested(w, 0x1_0000, 0x100);
  }

  lemma SignRoundTrip(w: U32)
    ensures ToU32(ToI32(w)) == w
  {}

  lemma DecodedWord(s: seq<U8>)
    requires |s| == 4
    ensures Decoded(s) == ToI32(WordOf(s))
  {
    hide Or, Shl;
    JoinBytes(s[0], s[1], s[2], s[3]);
  }

  lemma JoinBytes(a: nat, b: nat, c: nat, d: nat)
    requires a < 0x100 && b < 0x100 && c < 0x100 && d < 0x100
    ensures Or(Or(Or(Shl(a, 24), Shl(b, 16)), Shl(c, 8)), d) == Word(a, b, c, d)
  {
    PowersOf256();
    OrDisjoint(Shl(b, 16), a, 24);
    OrDisjoint(Shl(c, 8), 0x100 * a + b, 16);
    OrDisjoint(d, 0x1_0000 * a + 0x100 * b + c, 8);
  }

  lemma JoinTwoBytes(a: nat, b: nat)
    requires b < 0x100
    ensures Or(Shl(a, 8), b) == 0x100 * a + b
  {
    PowersOf256();
    OrDisjoint(b, a, 8);
  }

  /** Every signed word survives encoding and decoding. */
  lemma DecodeEncode(x: I32)
    ensures Decoded(Encoded(x)) == x
  {
    hide Encoded, Decoded, WordOf;
    DecodedWord(Encoded(x));
    EncodedWord(x);
  }

  /** Every four bytes survive decoding and encoding. */
  lemma EncodeDecode(s: seq<U8>)
    requires |s| == 4
    ensures Encoded(Decoded(s)) == s
  {
    hide Encoded, Decoded, ToU32, ToI32, Word;
    DecodedWord(s);
    EncodedDigits(Decoded(s));
    WordDigits(s[0], s[1], s[2], s[3]);
    SignRoundTrip(WordOf(s));
    var t := Encoded(Decoded(s));
    assert t[0] == s[0] && t[1] == s[1] && t[2] == s[2] && t[3] == s[3];
  }

  lemma WordDigits(a: nat, b: nat, c: nat, d: nat)
    requires a < 0x100 && b < 0x100 && c < 0x100 && d < 0x100
    ensures var w := Word(a, b, c, d);
            && w / 0x100_0000 == a && w / 0x1_0000 % 0x100 == b && w / 0x100 % 0x100 == c && w % 0x100 == d
  {
    var w := Word(a, b, c, d);
    var high, higher := 0x1_0000 * a + 0x100 * b + c, 0x100 * a + b;
    DivModUnique(w, 0x100, high, d);
    DivModUnique(high, 0x100, higher, c);
    DivModUnique(higher, 0x100, a, b);
    DivModUnique(w, 0x1_0000, higher, 0x100 * c + d);
    DivModUnique(w, 0x100_0000, a, 0x1_0000 * b + 0x100 * c + d);
  }
}
