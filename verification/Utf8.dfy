/** UTF-8 as section 4 of RFC 3629 defines it, and Go's `utf8.DecodeRune` over it. */
module Utf8 {

  type byte = b: int | 0 <= b < 256

  const NEWLINE: byte := 10
  const TAB: byte := 9
  const DEL: byte := 0x7F

  const RUNE_SELF := 0x80
  const RUNE_ERROR := 0xFFFD

  /** The bytes of an ASCII text. */
  function Ascii(s: string): (r: seq<byte>)
    requires forall i :: 0 <= i < |s| ==> s[i] < 128 as char
  {
    seq(|s|, i requires 0 <= i < |s| => s[i] as int)
  }

  /** UTF8-tail of RFC 3629. */
  predicate IsTail(b: byte) {
    0x80 <= b <= 0xBF
  }

  predicate IsHead3(b0: byte, b1: byte) {
    || (b0 == 0xE0 && 0xA0 <= b1 <= 0xBF)
    || (0xE1 <= b0 <= 0xEC && IsTail(b1))
    || (b0 == 0xED && 0x80 <= b1 <= 0x9F)
    || (0xEE <= b0 <= 0xEF && IsTail(b1))
  }

  predicate IsHead4(b0: byte, b1: byte) {
    || (b0 == 0xF0 && 0x90 <= b1 <= 0xBF)
    || (0xF1 <= b0 <= 0xF3 && IsTail(b1))
    || (b0 == 0xF4 && 0x80 <= b1 <= 0x8F)
  }

  /** The length of the UTF8-char at the start of `s`, or 0 when none starts there. */
  function CharLen(s: seq<byte>): (n: nat)
    ensures n <= 4 && n <= |s|
  {
    if |s| == 0 then 0
    else if s[0] < RUNE_SELF then 1
    else if |s| >= 2 && 0xC2 <= s[0] <= 0xDF && IsTail(s[1]) then 2
    else if |s| >= 3 && IsHead3(s[0], s[1]) && IsTail(s[2]) then 3
    else if |s| >= 4 && IsHead4(s[0], s[1]) && IsTail(s[2]) && IsTail(s[3]) then 4
    else 0
  }

  /** UTF8-octets of RFC 3629: a run of UTF8-chars and nothing else (`utf8.Valid`). */
  predicate WellFormed(s: seq<byte>)
    decreases |s|
  {
    s == [] || (CharLen(s) > 0 && WellFormed(s[CharLen(s)..]))
  }

  datatype Decoded = Decoded(r: int, size: nat)

  /** The scalar value of the well-formed character at the start of `s`. */
  function CharValue(s: seq<byte>): int
    requires CharLen(s) > 0
  {
    match CharLen(s)
    case 1 => s[0]
    case 2 => Bits(s[0] - 0xC0, s[1] - 0x80)
    case 3 => Bits(Bits(s[0] - 0xE0, s[1] - 0x80), s[2] - 0x80)
    case _ => Bits(Bits(Bits(s[0] - 0xF0, s[1] - 0x80), s[2] - 0x80), s[3] - 0x80)
  }

  /** `high` followed by six more bits. */
  function Bits(high: int, low: int): (r: int)
    requires 0 <= low < 0x40
    ensures r / 0x40 == high && r % 0x40 == low
  {
    high * 0x40 + low
  }

  /** `utf8.DecodeRune`: an ill-formed byte yields (RuneError, 1), the empty input (RuneError, 0). */
  function DecodeRune(s: seq<byte>): (d: Decoded)
    ensures s != [] ==> 1 <= d.size <= |s|
  {
    if s == [] then Decoded(RUNE_ERROR, 0)
    else if CharLen(s) == 0 then Decoded(RUNE_ERROR, 1)
    else Decoded(CharValue(s), CharLen(s))
  }

  predicate IsScalar(r: int) {
    0 <= r < 0xD800 || 0xE000 <= r < 0x110000
  }

  /** The encoding table of section 3 of RFC 3629. */
  function Encode(r: int): seq<byte>
    requires IsScalar(r)
  {
    var q := r / 0x40;
    if r < 0x80 then [r]
    else if r < 0x800 then [0xC0 + q, 0x80 + r % 0x40]
    else if r < 0x10000 then [0xE0 + q / 0x40, 0x80 + q % 0x40, 0x80 + r % 0x40]
    else [0xF0 + q / 0x40 / 0x40, 0x80 + q / 0x40 % 0x40, 0x80 + q % 0x40, 0x80 + r % 0x40]
  }

  /** The grammar accepts every encoded scalar value and decodes it to itself, whatever follows. */
  lemma {:induction false} DecodeEncode(r: int, rest: seq<byte>)
    requires IsScalar(r)
    ensures DecodeRune(Encode(r) + rest) == Decoded(r, |Encode(r)|)
  {
    var e := Encode(r);
    var s := e + rest;
    assert forall i :: 0 <= i < |e| ==> s[i] == e[i];
  }

  /** The grammar accepts nothing else: a character it finds is the encoding of its value. */
  lemma {:induction false} EncodeDecode(s: seq<byte>)
    requires CharLen(s) > 0
    ensures IsScalar(CharValue(s)) && Encode(CharValue(s)) == s[..CharLen(s)]
    ensures 0 <= CharValue(s) < 0xD800 || 0xE000 <= CharValue(s) < 0x110000
  {
    hide Encode, Bits;
    match CharLen(s)
    case 1 => EncodeOne(s[0]);
    case 2 => EncodeTwo(s[0], s[1]);
    case 3 => EncodeThree(s[0], s[1], s[2]);
    case _ => EncodeFour(s[0], s[1], s[2], s[3]);
  }

  lemma {:induction false} EncodeOne(b0: byte)
    requires b0 < RUNE_SELF
    ensures Encode(b0) == [b0]
  {
  }

  lemma {:induction false} EncodeTwo(b0: byte, b1: byte)
    requires 0xC2 <= b0 <= 0xDF && IsTail(b1)
    ensures IsScalar(Bits(b0 - 0xC0, b1 - 0x80)) && Encode(Bits(b0 - 0xC0, b1 - 0x80)) == [b0, b1]
  {
  }

  lemma {:induction false} EncodeThree(b0: byte, b1: byte, b2: byte)
    requires IsHead3(b0, b1) && IsTail(b2)
    ensures var v := Bits(Bits(b0 - 0xE0, b1 - 0x80), b2 - 0x80); IsScalar(v) && Encode(v) == [b0, b1, b2]
  {
    var q := Bits(b0 - 0xE0, b1 - 0x80);
    assert 0x20 <= q < 0x400;
  }

  lemma {:induction false} EncodeFour(b0: byte, b1: byte, b2: byte, b3: byte)
    requires IsHead4(b0, b1) && IsTail(b2) && IsTail(b3)
    ensures var v := Bits(Bits(Bits(b0 - 0xF0, b1 - 0x80), b2 - 0x80), b3 - 0x80);
            IsScalar(v) && Encode(v) == [b0, b1, b2, b3]
  {
    var q := Bits(Bits(b0 - 0xF0, b1 - 0x80), b2 - 0x80);
    assert 0x400 <= q < 0x4400;
  }

  /** A character is recognised from its own bytes alone. */
  lemma {:induction false} CharLenExtends(a: seq<byte>, b: seq<byte>)
    ensures CharLen(a) > 0 ==> CharLen(a + b) == CharLen(a) && CharValue(a + b) == CharValue(a)
    ensures CharLen(a + b) <= |a| ==> CharLen(a + b) == CharLen(a)
  {
  }

  /** Every byte of a character past its first is a UTF8-tail. */
  lemma {:induction false} TailsInside(s: seq<byte>, i: nat)
    requires 0 < i < CharLen(s)
    ensures IsTail(s[i])
  {
  }

  lemma {:induction false} WellFormedConcat(a: seq<byte>, b: seq<byte>)
    requires WellFormed(a) && WellFormed(b)
    ensures WellFormed(a + b)
    decreases |a|
  {
    if a == [] {
      assert a + b == b;
    } else {
      CharLenExtends(a, b);
      assert (a + b)[CharLen(a)..] == a[CharLen(a)..] + b;
      WellFormedConcat(a[CharLen(a)..], b);
    }
  }
}
