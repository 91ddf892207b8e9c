/**
 * The ARINC 429 word helpers shipped with the library (utils/lib/a429_tools.cpp
 * and examples/utils/a429_tools.h). A word is four bytes in natural order:
 * byte 0 holds the parity bit (0x80), the SSM (0x60) and the top of the
 * BNR value (0x1F, sign 0x10); bytes 1 and 2 hold the rest of the value,
 * byte 2's low two bits the SDI; byte 3 is the label, stored bit-reversed.
 *
 * Bytes are integers; the masks and shifts of the source pick contiguous
 * bit fields, written here with division and remainder by powers of two.
 */
module A429 {
  import opened Types

  // --- bits -------------------------------------------------------------------

  function Pow2(k: nat): (p: nat)
    ensures p >= 1
  {
    if k == 0 then 1 else 2 * Pow2(k - 1)
  }

  predicate IsBits(b: seq<int>)
  {
    forall i | 0 <= i < |b| :: 0 <= b[i] <= 1
  }

  /** The low `k` bits of `n`, least significant first. */
  function ToBits(n: nat, k: nat): (b: seq<int>)
    ensures |b| == k && IsBits(b)
  {
    if k == 0 then [] else [n % 2] + ToBits(n / 2, k - 1)
  }

  /** The number whose bits, least significant first, are `b`. */
  function FromBits(b: seq<int>): nat
    requires IsBits(b)
  {
    if b == [] then 0 else b[0] + 2 * FromBits(b[1..])
  }

  lemma {:induction false} FromBitsBound(b: seq<int>)
    requires IsBits(b)
    ensures FromBits(b) < Pow2(|b|)
  {
    if b != [] {
      FromBitsBound(b[1..]);
    }
  }

  lemma {:induction false} FromToBits(n: nat, k: nat)
    requires n < Pow2(k)
    ensures FromBits(ToBits(n, k)) == n
  {
    if k > 0 {
      FromToBits(n / 2, k - 1);
    }
  }

  lemma {:induction false} ToFromBits(b: seq<int>)
    requires IsBits(b)
    ensures ToBits(FromBits(b), |b|) == b
  {
    if b != [] {
      var n, rest := FromBits(b), b[1..];
      ToFromBits(rest);
      HalveBit(b[0], FromBits(rest));
      assert n % 2 == b[0] && n / 2 == FromBits(rest);
      assert ToBits(n, |b|) == [b[0]] + ToBits(FromBits(rest), |rest|);
      assert [b[0]] + rest == b;
    }
  }

  function Reversed(b: seq<int>): (r: seq<int>)
    ensures |r| == |b| && forall i | 0 <= i < |b| :: r[i] == b[|b| - 1 - i]
  {
    seq(|b|, i requires 0 <= i < |b| => b[|b| - 1 - i])
  }

  /** The byte with its bits in the opposite order: bit `k` moves to bit `7 - k`. */
  function Reverse8(n: Byte): (r: Byte)
    ensures ToBits(r, 8) == Reversed(ToBits(n, 8))
  {
    var rb := Reversed(ToBits(n, 8));
    FromBitsBound(rb);
    ToFromBits(rb);
    FromBits(rb)
  }

  /** Reversing twice gives the byte back. */
  lemma Reverse8Involutive(n: Byte)
    ensures Reverse8(Reverse8(n)) == n
  {
    var r := Reverse8(n);
    assert Reversed(Reversed(ToBits(n, 8))) == ToBits(n, 8);
    FromToBits(n, 8);
    FromToBits(Reverse8(r), 8);
  }

  // --- labels -------------------------------------------------------------------

  /** `strlen`: the characters before the terminating NUL. */
  function CLength(s: string): (n: nat)
    ensures n <= |s| && forall i | 0 <= i < n :: s[i] != '\0'
    ensures n < |s| ==> s[n] == '\0'
  {
    if s == [] || s[0] == '\0' then 0 else 1 + CLength(s[1..])
  }

  /** A string without NUL is read whole. */
  lemma {:induction false} CLengthWhole(s: string)
    requires forall i | 0 <= i < |s| :: s[i] != '\0'
    ensures CLength(s) == |s|
  {
    if s != [] {
      CLengthWhole(s[1..]);
    }
  }

  predicate IsOctal(c: char)
  {
    '0' <= c <= '7'
  }

  /** The value of an octal digit. */
  function Dig(c: char): int
  {
    c as int - '0' as int
  }

  /** The value of octal digits, most significant first. */
  function OctalValue(t: string): nat
    requires forall i | 0 <= i < |t| :: IsOctal(t[i])
  {
    if t == [] then 0
    else
      assert IsOctal(t[|t| - 1]);
      8 * OctalValue(t[..|t| - 1]) + Dig(t[|t| - 1])
  }

  /** The digits `a429_label_encode` reads: a fourth, leading '0' of C octal notation is dropped. */
  function LabelDigits(s: string): string
  {
    var t := s[..CLength(s)];
    if |t| == 4 && t[0] == '0' then t[1..] else t
  }

  /**
   * The label number of an octal label: one to three octal digits (after
   * dropping a leading '0' from four), at most 377, bit-reversed. None for
   * anything else.
   */
  function LabelNumber(s: string): Option<Byte>
  {
    var t := LabelDigits(s);
    if 1 <= |t| <= 3 && (forall i | 0 <= i < |t| :: IsOctal(t[i])) && OctalValue(t) < 256 then
      Some(Reverse8(OctalValue(t)))
    else None
  }

  /** One octal digit. */
  function OctalDigit(d: nat): char
    requires d < 8
  {
    ('0' as int + d) as char
  }

  /** A byte as three octal digits. */
  function Octal3(v: Byte): (s: string)
    ensures |s| == 3 && forall i | 0 <= i < 3 :: IsOctal(s[i])
  {
    [OctalDigit(v / 64), OctalDigit(v / 8 % 8), OctalDigit(v % 8)]
  }

  /**
   * `a429_label_encode`: the label number of an octal label string, 0 when
   * the string is not one (0 is also the number of label "000").
   */
  method LabelEncode(s: string) returns (number: Byte)
    ensures LabelNumber(s).Some? ==> number == LabelNumber(s).value
    ensures LabelNumber(s).None? ==> number == 0
  {
    var t := s[..CLength(s)];
    var len := |t|;
    if len == 4 && t[0] == '0' {
      len := 3;
      t := t[1..];
    }
    assert t == LabelDigits(s);
    if len == 0 || len > 3 {
      return 0;
    }
    var digits := [0, 0, 0];
    var i := 0;
    while i < len
      invariant 0 <= i <= len && |digits| == 3
      invariant forall j | 0 <= j < i :: IsOctal(t[j])
      invariant forall k | 0 <= k < 3 :: digits[k] == if len - 1 - k < i then DigitFromEnd(t, k) else 0
    {
      if t[i] < '0' || t[i] > '7' {
        assert !IsOctal(t[i]);
        LabelNumberRejectsDigits(s);
        return 0;
      }
      digits := digits[len - i - 1 := Dig(t[i])];
      i := i + 1;
    }
    if digits[2] > 3 {
      assert |t| == 3 && t[0] > '3';
      LabelNumberRejectsDigits(s);
      return 0;
    }
    var inverted := digits[2] * 64 + digits[1] * 8 + digits[0];
    OctalDigitsValue(t);
    number := Reverse8(inverted);
  }

  /** Digit `k` of `t` counted from the least significant one, 0 beyond its length. */
  function DigitFromEnd(t: string, k: nat): int
  {
    if k < |t| then Dig(t[|t| - 1 - k]) else 0
  }

  /** The value of up to three octal digits, by position. */
  lemma OctalDigitsValue(t: string)
    requires 1 <= |t| <= 3 && forall i | 0 <= i < |t| :: IsOctal(t[i])
    ensures OctalValue(t) == DigitFromEnd(t, 2) * 64 + DigitFromEnd(t, 1) * 8 + DigitFromEnd(t, 0)
  {
    var init := t[..|t| - 1];
    if |t| > 1 {
      var init2 := init[..|init| - 1];
      if |t| > 2 {
        assert init2[..|init2| - 1] == [];
      } else {
        assert init2 == [];
      }
    } else {
      assert init == [];
    }
  }

  /**
   * `a429_label_decode`: the 256-entry table, whose entry `n` is the
   * three-digit octal label of the bit-reversed `n`.
   */
  function LabelDecode(n: Byte): (s: string)
    ensures |s| == 3
  {
    Octal3(Reverse8(n))
  }

  /** Three characters without a NUL are read whole. */
  lemma LabelDigitsOfThree(s: string)
    requires |s| == 3 && forall i | 0 <= i < 3 :: s[i] != '\0'
    ensures CLength(s) == 3 && LabelDigits(s) == s
  {
    assert s[1..][1..][1..] == [];
    assert s[..3] == s;
  }

  /** Three octal digits up to "377" are the octal form of their value. */
  lemma Octal3OfValue(s: string)
    requires |s| == 3 && forall i | 0 <= i < 3 :: IsOctal(s[i])
    requires s[0] <= '3'
    ensures OctalValue(s) < 256 && Octal3(OctalValue(s)) == s
  {
    OctalDigitsValue(s);
    var a, b, c := Dig(s[0]), Dig(s[1]), Dig(s[2]);
    var v := OctalValue(s);
    assert v == a * 64 + b * 8 + c;
    assert v / 64 == a && v / 8 % 8 == b && v % 8 == c;
    assert OctalDigit(a) == s[0] && OctalDigit(b) == s[1] && OctalDigit(c) == s[2];
  }

  /** The three octal digits of a byte have its value. */
  lemma ValueOfOctal3(v: Byte)
    ensures OctalValue(Octal3(v)) == v
  {
    var s := Octal3(v);
    OctalDigitsValue(s);
    assert Dig(s[0]) == v / 64 && Dig(s[1]) == v / 8 % 8 && Dig(s[2]) == v % 8;
  }

  /** Decoding a label number and encoding the result gives the number back. */
  lemma LabelEncodeOfDecode(n: Byte)
    ensures LabelNumber(LabelDecode(n)) == Some(n)
  {
    var v := Reverse8(n);
    ValueOfOctal3(v);
    LabelDigitsOfThree(Octal3(v));
    Reverse8Involutive(n);
  }

  /** Every three-digit octal label up to "377" is decoded back from its number. */
  lemma LabelDecodeOfEncode(s: string)
    requires |s| == 3 && forall i | 0 <= i < 3 :: IsOctal(s[i])
    requires s[0] <= '3'
    ensures LabelNumber(s).Some? && LabelDecode(LabelNumber(s).value) == s
  {
    LabelDigitsOfThree(s);
    Octal3OfValue(s);
    var v := OctalValue(s);
    assert LabelNumber(s) == Some(Reverse8(v));
    Reverse8Involutive(v);
  }

  /** Strings of the wrong length are not labels: empty, four characters without the C prefix, five or more. */
  lemma LabelNumberRejectsLength(s: string)
    requires CLength(s) == 0 || CLength(s) > 4 || (CLength(s) == 4 && s[0] != '0')
    ensures LabelNumber(s) == None
  {
    assert |LabelDigits(s)| == CLength(s);
  }

  /** Digits that are not octal, or a first digit above 3 in three, are not labels. */
  lemma LabelNumberRejectsDigits(s: string)
    requires var t := LabelDigits(s);
      1 <= |t| <= 3 && ((exists i | 0 <= i < |t| :: !IsOctal(t[i])) || (|t| == 3 && t[0] > '3'))
    ensures LabelNumber(s) == None
  {
    var t := LabelDigits(s);
    if forall i | 0 <= i < |t| :: IsOctal(t[i]) {
      OctalDigitsValue(t);
    }
  }

  /** The C prefix "0" is dropped before three digits. */
  lemma LabelNumberCPrefix(s: string)
    requires |s| == 3 && forall i | 0 <= i < 3 :: s[i] != '\0'
    ensures LabelNumber("0" + s) == LabelNumber(s)
  {
    var t := "0" + s;
    assert CLength(s) == 3 by {
      assert s[1..][1..][1..] == [];
    }
    assert CLength(t) == 4 by {
      assert t[1..] == s;
    }
    assert t[..4][1..] == s[..3];
  }

  // --- SDI ----------------------------------------------------------------------

  const SDI_00: int := 0
  const SDI_01: int := 1
  const SDI_10: int := 2
  const SDI_11: int := 3

  /** The two characters naming an SDI. */
  function SdiString(sdi: int): string
    requires 0 <= sdi < 4
  {
    if sdi == SDI_00 then "00" else if sdi == SDI_01 then "01" else if sdi == SDI_10 then "10" else "11"
  }

  /** `a429_sdi_from_string`: the SDI named by the first two characters, SDI 00 otherwise. */
  function SdiFromString(s: string): (sdi: int)
    ensures 0 <= sdi < 4
  {
    if |s| >= 2 && s[..2] == "00" then SDI_00
    else if |s| >= 2 && s[..2] == "01" then SDI_01
    else if |s| >= 2 && s[..2] == "10" then SDI_10
    else if |s| >= 2 && s[..2] == "11" then SDI_11
    else SDI_00
  }

  /** Every SDI is read back from its name, whatever follows it; any other string reads as SDI 00. */
  lemma SdiFromStringOfName(sdi: int, rest: string)
    requires 0 <= sdi < 4
    ensures SdiFromString(SdiString(sdi) + rest) == sdi
    ensures forall s: string | !(exists d | 0 <= d < 4 :: |s| >= 2 && s[..2] == SdiString(d)) :: SdiFromString(s) == SDI_00
  {
    assert (SdiString(sdi) + rest)[..2] == SdiString(sdi);
    forall s: string | !(exists d | 0 <= d < 4 :: |s| >= 2 && s[..2] == SdiString(d))
      ensures SdiFromString(s) == SDI_00
    {
      assert SdiString(0) == "00" && SdiString(1) == "01" && SdiString(2) == "10" && SdiString(3) == "11";
    }
  }

  // --- fields of a word ---------------------------------------------------------

  /** `a429_label_get`. */
  function LabelGet(w: seq<Byte>): Byte
    requires |w| == 4
  {
    w[3]
  }

  /** `a429_sdi_get`: the low two bits of byte 2. */
  function SdiGet(w: seq<Byte>): (sdi: int)
    requires |w| == 4
    ensures 0 <= sdi < 4
  {
    w[2] % 4
  }

  /** `a429_ssm_get`: bits 5 and 6 of byte 0. */
  function SsmGet(w: seq<Byte>): (ssm: int)
    requires |w| == 4
    ensures 0 <= ssm < 4
  {
    w[0] / 32 % 4
  }

  /** `a429_label_set`: byte 3 becomes the label number. */
  method LabelSet(word: array<Byte>, number: Byte)
    requires word.Length == 4
    modifies word
    ensures LabelGet(word[..]) == number
    ensures word[..3] == old(word[..3])
  {
    word[3] := number;
  }

  /** `a429_sdi_set`: the low two bits of byte 2 become the SDI, its other six bits stay. */
  method SdiSet(word: array<Byte>, sdi: int)
    requires word.Length == 4 && 0 <= sdi < 4
    modifies word
    ensures SdiGet(word[..]) == sdi && word[2] / 4 == old(word[2]) / 4
    ensures word[0] == old(word[0]) && word[1] == old(word[1]) && word[3] == old(word[3])
  {
    word[2] := word[2] / 4 * 4 + sdi;
  }

  /** `a429_ssm_set`: bits 5 and 6 of byte 0 become the low two bits of `ssm`; bits 0 to 4 and 7 stay. */
  method SsmSet(word: array<Byte>, ssm: Byte)
    requires word.Length == 4
    modifies word
    ensures SsmGet(word[..]) == ssm % 4
    ensures word[0] % 32 == old(word[0]) % 32 && word[0] / 128 == old(word[0]) / 128
    ensures word[1..] == old(word[1..])
  {
    word[0] := word[0] / 128 * 128 + ssm % 4 * 32 + word[0] % 32;
  }

  // --- BNR values ---------------------------------------------------------------

  const BNR_MIN: int := -262144
  const BNR_MAX: int := 262143

  /**
   * `a429_bnr_get`: a 19-bit two's-complement value, its top five bits
   * (sign 0x10) in byte 0, eight in byte 1 and six in the top of byte 2.
   */
  function BnrGet(w: seq<Byte>): int
    requires |w| == 4
  {
    var w0, w1, w2 := w[0] as int, w[1] as int, w[2] as int;
    if w0 / 16 % 2 == 1 then
      -1 - (31 - w0 % 32) * 16384 - (255 - w1) * 64 - (255 - w2) / 4
    else
      w0 % 32 * 16384 + w1 * 64 + w2 / 4
  }

  /** The three value fields of a word hold `value`: the value is read back when it lies within 19 bits. */
  lemma BnrFieldsRoundTrip(w: seq<Byte>, value: int)
    requires |w| == 4
    requires w[2] / 4 == value % 64 && w[1] == value / 64 % 256 && w[0] % 32 == value / 16384 % 32
    requires BNR_MIN <= value <= BNR_MAX
    ensures BnrGet(w) == value
  {
    var a, b, c := value / 16384, value / 64 % 256, value % 64;
    assert value / 64 == 256 * a + b;
    assert value == 16384 * a + 64 * b + c;
    assert -16 <= a < 16;
    if value < 0 {
      assert a < 0 && w[0] % 32 == a + 32;
      assert (255 - w[2]) / 4 == 63 - c;
    } else {
      assert w[0] % 32 == a;
    }
  }

  /**
   * `a429_bnr_set`: the value's low 19 bits go to their fields (the sign
   * bit 0x10 set first for a negative value lies in the top field and is
   * overwritten by it); the SDI bits, the top three bits of byte 0 and the
   * label stay. Within 19 bits, `a429_bnr_get` reads the value back.
   */
  method BnrSet(word: array<Byte>, value: int)
    requires word.Length == 4 && -0x8000_0000 <= value < 0x8000_0000
    modifies word
    ensures word[2] / 4 == value % 64 && word[1] == value / 64 % 256 && word[0] % 32 == value / 16384 % 32
    ensures word[2] % 4 == old(word[2]) % 4 && word[0] / 32 == old(word[0]) / 32 && word[3] == old(word[3])
    ensures BNR_MIN <= value <= BNR_MAX ==> BnrGet(word[..]) == value
  {
    if value < 0 && word[0] / 16 % 2 == 0 {
      word[0] := word[0] + 16;
    }
    word[2] := value % 64 * 4 + word[2] % 4;
    word[1] := value / 64 % 256;
    word[0] := value / 16384 % 32 + word[0] / 32 * 32;
    if BNR_MIN <= value <= BNR_MAX {
      BnrFieldsRoundTrip(word[..], value);
    }
  }

  /** The `uint32_t` argument of `a429_set` as the `int32_t` `a429_bnr_set` receives. */
  function AsInt32(v: U32): (r: int)
    ensures -0x8000_0000 <= r < 0x8000_0000
    ensures r % 0x1_0000_0000 == v
  {
    if v < 0x8000_0000 then v else v - 0x1_0000_0000
  }

  /**
   * `a429_set`: byte 0 cleared, then the label, the SDI and the BNR value
   * set: the getters read back the label number (0 for an invalid label),
   * the SDI and, within 19 bits, the value; SSM and parity are 0.
   */
  method Set(word: array<Byte>, octal: string, sdi: int, value: U32)
    requires word.Length == 4 && 0 <= sdi < 4
    modifies word
    ensures LabelGet(word[..]) == if LabelNumber(octal).Some? then LabelNumber(octal).value else 0
    ensures SdiGet(word[..]) == sdi && SsmGet(word[..]) == 0 && word[0] / 128 == 0
    ensures word[2] / 4 == AsInt32(value) % 64 && word[1] == AsInt32(value) / 64 % 256
    ensures word[0] == AsInt32(value) / 16384 % 32
    ensures BNR_MIN <= AsInt32(value) <= BNR_MAX ==> BnrGet(word[..]) == AsInt32(value)
  {
    word[0] := 0;
    var number := LabelEncode(octal);
    LabelSet(word, number);
    assert word[0] == 0 && word[3] == number;
    SdiSet(word, sdi);
    assert word[0] == 0 && word[3] == number && word[2] % 4 == sdi;
    var v := AsInt32(value);
    BnrSet(word, v);
    assert word[0] / 32 == 0 && word[3] == number && word[2] % 4 == sdi;
  }

  // --- parity -------------------------------------------------------------------

  const PARITY_EVEN: int := 0
  const PARITY_ODD: int := 1
  /** The four levels of macros that build `a429_parity_table`. */
  const TABLE_LEVELS: nat := 4

  /** Whether `n` has an odd number of one bits. */
  predicate OddOnes(n: nat)
  {
    if n == 0 then false else (n % 2 == 1) != OddOnes(n / 2)
  }

  /** Bitwise exclusive or. */
  function Xor(a: nat, b: nat): nat
    decreases a + b
  {
    if a == 0 && b == 0 then 0 else (if a % 2 == b % 2 then 0 else 1) + 2 * Xor(a / 2, b / 2)
  }

  lemma {:induction false} XorBound(a: nat, b: nat, k: nat)
    requires a < Pow2(k) && b < Pow2(k)
    ensures Xor(a, b) < Pow2(k)
    decreases a + b
  {
    if (a != 0 || b != 0) && k > 0 {
      XorBound(a / 2, b / 2, k - 1);
    }
  }

  /** A low bit below a number. */
  lemma HalveBit(low: int, high: int)
    requires 0 <= low <= 1
    ensures (low + 2 * high) % 2 == low && (low + 2 * high) / 2 == high
  {
  }

  /** One bit off the bottom. */
  lemma OddOnesStep(n: nat)
    ensures OddOnes(n) == ((n % 2 == 1) != OddOnes(n / 2))
  {
  }

  /** `a ^ b` has an odd number of ones exactly when one of `a` and `b` has. */
  lemma {:induction false} OddOnesXor(a: nat, b: nat)
    ensures OddOnes(Xor(a, b)) == (OddOnes(a) != OddOnes(b))
    decreases a + b
  {
    if a != 0 || b != 0 {
      var high := Xor(a / 2, b / 2);
      OddOnesXor(a / 2, b / 2);
      var low := if a % 2 == b % 2 then 0 else 1;
      HalveBit(low, high);
      OddOnesStep(Xor(a, b));
      OddOnesStep(a);
      OddOnesStep(b);
    }
  }

  /** Setting bit `k` above the value adds one 1. */
  lemma {:induction false} OddOnesHighBit(n: nat, k: nat)
    requires n < Pow2(k)
    ensures OddOnes(n + Pow2(k)) == !OddOnes(n)
  {
    if k == 0 {
      assert n + Pow2(k) == 1;
      OddOnesStep(1);
    } else {
      var p := Pow2(k - 1);
      assert Pow2(k) == 2 * p;
      var top := n + 2 * p;
      assert top / 2 == n / 2 + p && top % 2 == n % 2;
      OddOnesHighBit(n / 2, k - 1);
      OddOnesStep(top);
      OddOnesStep(n);
    }
  }

  /**
   * The macros `P2`, `P4`, `P6` and the table itself: a block of level `k`
   * is four blocks of level `k - 1` for `n`, `n ^ 1`, `n ^ 1` and `n`.
   */
  function ParityBlock(k: nat, n: int): (b: seq<int>)
    ensures |b| == Pow2(2 * k)
  {
    if k == 0 then [n]
    else
      var same, flipped := ParityBlock(k - 1, n), ParityBlock(k - 1, 1 - n);
      assert Pow2(2 * k) == 4 * Pow2(2 * (k - 1));
      same + flipped + flipped + same
  }

  /** `a429_parity_table`: `P6(EVEN), P6(ODD), P6(ODD), P6(EVEN)`, a block of level 4. */
  function ParityTable(): (t: seq<int>)
    ensures |t| == 256
  {
    assert TABLE_LEVELS == 4 && Pow2(8) == 256;
    ParityBlock(TABLE_LEVELS, PARITY_EVEN)
  }

  /** The offset of `i` within its quarter of `4 * m`. */
  function QuarterOffset(i: nat, m: nat): (r: nat)
    requires i < 4 * m
    ensures r < m
  {
    if i < m then i else if i < 2 * m then i - m else if i < 3 * m then i - 2 * m else i - 3 * m
  }

  /** An entry of a block is an entry of the block of the level below for its quarter. */
  lemma ParityBlockQuarter(k: nat, n: int, i: nat)
    requires k > 0 && i < Pow2(2 * k)
    ensures Pow2(2 * k) == 4 * Pow2(2 * (k - 1))
    ensures var m := Pow2(2 * (k - 1));
      ParityBlock(k, n)[i] == ParityBlock(k - 1, if m <= i < 3 * m then 1 - n else n)[QuarterOffset(i, m)]
  {
    var m := Pow2(2 * (k - 1));
    assert Pow2(2 * k) == 4 * m;
    var same, flipped := ParityBlock(k - 1, n), ParityBlock(k - 1, 1 - n);
    assert ParityBlock(k, n) == same + flipped + flipped + same;
  }

  /** The two middle quarters of `4 * 2^h` have bit `h` or bit `h + 1` set, the last both. */
  lemma OddOnesQuarter(i: nat, h: nat)
    requires i < 4 * Pow2(h)
    ensures var m := Pow2(h); OddOnes(i) == (OddOnes(QuarterOffset(i, m)) != (m <= i < 3 * m))
  {
    var m := Pow2(h);
    var r := QuarterOffset(i, m);
    assert Pow2(h + 1) == 2 * m;
    if m <= i < 2 * m {
      OddOnesHighBit(r, h);
    } else if 2 * m <= i < 3 * m {
      OddOnesHighBit(r, h + 1);
    } else if 3 * m <= i {
      OddOnesHighBit(r, h);
      OddOnesHighBit(r + m, h + 1);
    }
  }

  /** Entry `i` of a block for `n` is `n`, flipped when `i` has an odd number of ones. */
  lemma {:induction false} ParityBlockAt(k: nat, n: int, i: nat)
    requires 0 <= n <= 1 && i < Pow2(2 * k)
    ensures ParityBlock(k, n)[i] == if OddOnes(i) then 1 - n else n
  {
    if k == 0 {
      assert i == 0 && !OddOnes(0);
    } else {
      var m := Pow2(2 * (k - 1));
      ParityBlockQuarter(k, n, i);
      OddOnesQuarter(i, 2 * (k - 1));
      ParityBlockAt(k - 1, if m <= i < 3 * m then 1 - n else n, QuarterOffset(i, m));
    }
  }

  /** The table holds the parity of its index: 1 exactly for an odd number of one bits. */
  lemma ParityTableAt(i: Byte)
    ensures ParityTable()[i] == if OddOnes(i) then 1 else 0
  {
    assert TABLE_LEVELS == 4 && Pow2(8) == 256;
    ParityBlockAt(TABLE_LEVELS, PARITY_EVEN, i);
  }

  /** The index `a429_parity_update` and `a429_parity_match` look up: the four bytes without the parity bit, xor-ed. */
  function ParityIndex(w: seq<Byte>): (x: Byte)
    requires |w| == 4
    ensures OddOnes(x) == (((OddOnes(w[0] % 128) != OddOnes(w[1])) != OddOnes(w[2])) != OddOnes(w[3]))
  {
    assert Pow2(8) == 256;
    var x01 := Xor(w[0] % 128, w[1]);
    XorBound(w[0] % 128, w[1], 8);
    OddOnesXor(w[0] % 128, w[1]);
    var x012 := Xor(x01, w[2]);
    XorBound(x01, w[2], 8);
    OddOnesXor(x01, w[2]);
    XorBound(x012, w[3], 8);
    OddOnesXor(x012, w[3]);
    Xor(x012, w[3])
  }

  /** The parity of the 32 bits of a word: 1 when it holds an odd number of ones. */
  function WordParity(w: seq<Byte>): int
    requires |w| == 4
  {
    if ((OddOnes(w[0]) != OddOnes(w[1])) != OddOnes(w[2])) != OddOnes(w[3]) then 1 else 0
  }

  /** The parity of a byte: 1 for an odd number of one bits, the entry `a429_parity_table` holds for it. */
  function ByteParity(x: Byte): (p: int)
    ensures p == 0 || p == 1
  {
    if OddOnes(x) then 1 else 0
  }

  /**
   * A word after `a429_parity_update`: the parity bit cleared, then set
   * exactly when the table entry for the other 31 bits equals the kind.
   */
  function ParityUpdated(w: seq<Byte>, kind: int): (r: seq<Byte>)
    requires |w| == 4
    ensures |r| == 4 && r[0] % 128 == w[0] % 128 && r[1] == w[1] && r[2] == w[2] && r[3] == w[3]
  {
    var cleared := w[0 := w[0] % 128];
    if ByteParity(ParityIndex(cleared)) == kind then cleared[0 := cleared[0] + 128] else cleared
  }

  /** `a429_parity_update`: only the parity bit changes, as the table lookup decides. */
  method ParityUpdate(word: array<Byte>, kind: int)
    requires word.Length == 4
    modifies word
    ensures word[..] == ParityUpdated(old(word[..]), kind)
  {
    ghost var cleared := word[..][0 := word[0] % 128];
    word[0] := word[0] % 128;
    assert word[..] == cleared;
    var x := ParityIndex(word[..]);
    var entry := ParityTable()[x];
    ParityTableAt(x);
    if entry == kind {
      word[0] := word[0] + 128;
      assert word[..] == cleared[0 := cleared[0] + 128];
    }
  }

  /** `a429_parity_match`: the parity bit is set exactly when the table entry equals the kind. */
  predicate ParityMatch(w: seq<Byte>, kind: int)
    requires |w| == 4
  {
    (w[0] / 128 == 1) == (ParityTable()[ParityIndex(w)] == kind)
  }

  /** A word matches when its parity bit is set exactly when the parity of its other 31 bits is the kind. */
  lemma ParityMatchParity(w: seq<Byte>, kind: int)
    requires |w| == 4
    ensures ParityMatch(w, kind) <==> ((w[0] >= 128) == (ByteParity(ParityIndex(w)) == kind))
  {
    ParityTableAt(ParityIndex(w));
  }

  /** The parity bit on top of the other 31 bits. */
  lemma ParityBitCounts(w: seq<Byte>)
    requires |w| == 4
    ensures OddOnes(w[0]) == (OddOnes(w[0] % 128) != (w[0] >= 128))
  {
    if w[0] >= 128 {
      assert Pow2(7) == 128;
      OddOnesHighBit(w[0] % 128, 7);
      assert w[0] == w[0] % 128 + 128;
    }
  }

  /** The parity of a word is that of its other 31 bits, flipped by the parity bit. */
  lemma WordParityOfIndex(w: seq<Byte>)
    requires |w| == 4
    ensures WordParity(w) == if (ByteParity(ParityIndex(w)) == 1) != (w[0] >= 128) then 1 else 0
  {
    ParityBitCounts(w);
  }

  /** A word and the same word with byte 0's parity bit cleared give the same index. */
  lemma ParityIndexIgnoresBit(w: seq<Byte>, v: seq<Byte>)
    requires |w| == 4 && |v| == 4
    requires w[0] % 128 == v[0] % 128 && w[1] == v[1] && w[2] == v[2] && w[3] == v[3]
    ensures ParityIndex(w) == ParityIndex(v)
  {
  }

  /**
   * An updated word matches for the same kind, and its parity is the
   * opposite of the kind: PARITY_ODD gives an even number of ones.
   */
  lemma ParityUpdatedParity(w: seq<Byte>, kind: int)
    requires |w| == 4 && 0 <= kind <= 1
    ensures ParityMatch(ParityUpdated(w, kind), kind)
    ensures WordParity(ParityUpdated(w, kind)) == 1 - kind
  {
    var r := ParityUpdated(w, kind);
    var cleared := w[0 := w[0] % 128];
    ParityIndexIgnoresBit(r, cleared);
    ParityMatchParity(r, kind);
    WordParityOfIndex(r);
  }

  /** A word of zeros updated for odd parity is left as it is, with an even number of ones. */
  lemma ParityOddGivesEven(z: seq<Byte>)
    requires z == [0, 0, 0, 0]
    ensures ParityUpdated(z, PARITY_ODD) == z && WordParity(z) == PARITY_EVEN
  {
    assert z[0 := 0] == z;
    assert !OddOnes(0);
  }

  /** The parity bit ARINC 429 asks for: set exactly when it makes the number of ones agree with the kind. */
  function ParityIntended(w: seq<Byte>, kind: int): (r: seq<Byte>)
    requires |w| == 4
    ensures |r| == 4 && r[0] % 128 == w[0] % 128 && r[1] == w[1] && r[2] == w[2] && r[3] == w[3]
  {
    var cleared := w[0 := w[0] % 128];
    if ByteParity(ParityIndex(cleared)) != kind then cleared[0 := cleared[0] + 128] else cleared
  }

  /** The corrected update gives the word the parity of the kind. */
  lemma ParityIntendedParity(w: seq<Byte>, kind: int)
    requires |w| == 4 && 0 <= kind <= 1
    ensures WordParity(ParityIntended(w, kind)) == kind
  {
    var r := ParityIntended(w, kind);
    var cleared := w[0 := w[0] % 128];
    ParityIndexIgnoresBit(r, cleared);
    WordParityOfIndex(r);
  }
}
