/** Reading the visible escapes back: what the sanitiser keeps of the text it rewrites. */
module Unescape {
  import opened Sanitize
  import opened Utf8

  const BACKSLASH: byte := 0x5C
  const LOWER_X: byte := 0x78

  predicate IsHexDigit(b: byte) {
    HexValue(b) >= 0
  }

  /** The text starts with "\xNN" in lower-case hexadecimal. */
  predicate StartsEscape(s: seq<byte>) {
    |s| >= 4 && s[0] == BACKSLASH && s[1] == LOWER_X && IsHexDigit(s[2]) && IsHexDigit(s[3])
  }

  function EscapedByte(s: seq<byte>): byte
    requires StartsEscape(s)
  {
    HexValue(s[2]) * 16 + HexValue(s[3])
  }

  /** Every "\xNN" becomes its byte again. */
  function Unescape(s: seq<byte>): (u: seq<byte>)
    ensures |u| <= |s|
    decreases |s|
  {
    if s == [] then []
    else if StartsEscape(s) then [EscapedByte(s)] + Unescape(s[4..])
    else [s[0]] + Unescape(s[1..])
  }

  lemma {:induction false} UnescapeHex(bytes: seq<byte>, rest: seq<byte>)
    ensures Unescape(HexEscapeAll(bytes) + rest) == bytes + Unescape(rest)
    decreases |bytes|
  {
    hide HexEscape, Unescape;
    if bytes == [] {
      assert HexEscapeAll(bytes) + rest == rest;
    } else {
      var n := |bytes| - 1;
      var e := HexEscape(bytes[n]);
      UnescapeOne(bytes[n], rest);
      UnescapeHex(bytes[..n], e + rest);
      assert HexEscapeAll(bytes) + rest == HexEscapeAll(bytes[..n]) + (e + rest);
      assert bytes[..n] + ([bytes[n]] + Unescape(rest)) == bytes + Unescape(rest);
    }
  }

  lemma {:induction false} UnescapeOne(b: byte, rest: seq<byte>)
    ensures Unescape(HexEscape(b) + rest) == [b] + Unescape(rest)
  {
    var s := HexEscape(b) + rest;
    assert s[4..] == rest;
    assert StartsEscape(s) && EscapedByte(s) == b;
  }

  lemma {:induction false} UnescapePlain(bytes: seq<byte>, rest: seq<byte>)
    requires BACKSLASH !in bytes
    ensures Unescape(bytes + rest) == bytes + Unescape(rest)
    decreases |bytes|
  {
    if bytes == [] {
      assert bytes + rest == rest;
    } else {
      assert (bytes + rest)[1..] == bytes[1..] + rest;
      UnescapePlain(bytes[1..], rest);
    }
  }

  predicate IsPrintable(b: byte) {
    0x20 <= b < DEL
  }

  /** Printable ASCII is copied one byte at a time; anything else starts the output with a backslash,
      a line end, a tab or a byte beyond ASCII. */
  lemma {:induction false} EscapeFirst(unsafe: RunePolicy, s: seq<byte>)
    requires s != []
    ensures IsPrintable(s[0]) ==> Escape(unsafe, s) == [s[0]] + Escape(unsafe, s[1..])
    ensures !IsPrintable(s[0]) ==> Escape(unsafe, s)[0] != LOWER_X && !IsHexDigit(Escape(unsafe, s)[0])
  {
    hide EscapeHead, Escape, StepLen, IsHexDigit;
    FirstOfEscape(unsafe, s);
    HeadFirst(unsafe, s);
  }

  lemma {:induction false} HeadFirst(unsafe: RunePolicy, s: seq<byte>)
    requires s != []
    ensures IsPrintable(s[0]) ==> StepLen(s) == 1 && EscapeHead(unsafe, s) == [s[0]]
    ensures !IsPrintable(s[0]) ==> EscapeHead(unsafe, s)[0] != LOWER_X && !IsHexDigit(EscapeHead(unsafe, s)[0])
  {
    HeadCases(unsafe, s);
    hide EscapeHead, StepLen;
    if s[0] >= RUNE_SELF {
      HeadHigh(unsafe, s);
    }
  }

  lemma {:induction false} HeadHigh(unsafe: RunePolicy, s: seq<byte>)
    requires s != [] && s[0] >= RUNE_SELF
    ensures EscapeHead(unsafe, s)[0] == BACKSLASH || EscapeHead(unsafe, s)[0] >= RUNE_SELF
  {
    hide HexEscapeAll, DecodeRune, StartsClean;
    HexEscapeAllStart(s[..StepLen(s)]);
  }

  lemma {:induction false} FirstOfEscape(unsafe: RunePolicy, s: seq<byte>)
    requires s != []
    ensures Escape(unsafe, s) == EscapeHead(unsafe, s) + Escape(unsafe, s[StepLen(s)..])
  {
    hide EscapeHead, DecodeRune;
  }

  lemma {:induction false} HexEscapeAllStart(s: seq<byte>)
    requires s != []
    ensures HexEscapeAll(s)[0] == BACKSLASH
  {
    if |s| > 1 {
      HexEscapeAllStart(s[..|s| - 1]);
    }
  }

  lemma {:induction false} StartsEscapeKept(unsafe: RunePolicy, s: seq<byte>)
    requires s != [] && s[0] == BACKSLASH
    ensures StartsEscape(Escape(unsafe, s)) <==> StartsEscape(s)
    ensures StartsEscape(s) ==> Escape(unsafe, s) == s[..4] + Escape(unsafe, s[4..])
    ensures Escape(unsafe, s) == [s[0]] + Escape(unsafe, s[1..])
  {
    hide Escape;
    EscapeFirst(unsafe, s);
    if |s| > 1 {
      EscapeFirst(unsafe, s[1..]);
      if s[1] == LOWER_X && |s| > 2 {
        assert s[1..][1..] == s[2..];
        EscapeFirst(unsafe, s[2..]);
        if IsHexDigit(s[2]) && |s| > 3 {
          assert s[2..][1..] == s[3..];
          EscapeFirst(unsafe, s[3..]);
          assert s[3..][1..] == s[4..];
        }
      }
    }
  }

  /** Escaping loses nothing and adds nothing: read back, the sanitised text is the raw text read
      back. */
  lemma {:induction false} UnescapeAbsorbsEscape(unsafe: RunePolicy, s: seq<byte>)
    ensures Unescape(Escape(unsafe, s)) == Unescape(s)
    decreases |s|
  {
    hide Escape, StepLen, Unescape, StartsEscape;
    if s == [] {
      EscapeNothing(unsafe);
    } else if s[0] == BACKSLASH {
      if StartsEscape(s) {
        StartsEscapeShrinks(s);
        UnescapeAbsorbsEscape(unsafe, s[4..]);
      } else {
        UnescapeAbsorbsEscape(unsafe, s[1..]);
      }
      AbsorbBackslash(unsafe, s);
    } else {
      UnescapeAbsorbsEscape(unsafe, s[StepLen(s)..]);
      AbsorbHead(unsafe, s);
    }
  }

  lemma {:induction false} StartsEscapeShrinks(s: seq<byte>)
    requires StartsEscape(s)
    ensures |s| >= 4 && |Unescape(s)| < |s|
  {
  }

  lemma {:induction false} AbsorbBackslash(unsafe: RunePolicy, s: seq<byte>)
    requires s != [] && s[0] == BACKSLASH
    requires if StartsEscape(s) then Unescape(Escape(unsafe, s[4..])) == Unescape(s[4..])
             else Unescape(Escape(unsafe, s[1..])) == Unescape(s[1..])
    ensures Unescape(Escape(unsafe, s)) == Unescape(s)
  {
    hide Escape;
    StartsEscapeKept(unsafe, s);
    var e := Escape(unsafe, s);
    assert StartsEscape(s) ==> e[4..] == Escape(unsafe, s[4..]);
    assert e[1..] == Escape(unsafe, s[1..]);
  }

  lemma {:induction false} AbsorbHead(unsafe: RunePolicy, s: seq<byte>)
    requires s != [] && s[0] != BACKSLASH
    requires Unescape(Escape(unsafe, s[StepLen(s)..])) == Unescape(s[StepLen(s)..])
    ensures Unescape(Escape(unsafe, s)) == Unescape(s)
  {
    hide Escape, EscapeHead, StepLen, Unescape;
    FirstOfEscape(unsafe, s);
    var n := StepLen(s);
    UnescapeHead(unsafe, s, Escape(unsafe, s[n..]));
    UnescapePlain(s[..n], s[n..]);
    assert s[..n] + s[n..] == s;
  }

  lemma {:induction false} EscapeNothing(unsafe: RunePolicy)
    ensures Escape(unsafe, []) == []
  {
  }

  lemma {:induction false} UnescapeHead(unsafe: RunePolicy, s: seq<byte>, rest: seq<byte>)
    requires s != [] && s[0] != BACKSLASH
    ensures BACKSLASH !in s[..StepLen(s)]
    ensures Unescape(EscapeHead(unsafe, s) + rest) == s[..StepLen(s)] + Unescape(rest)
  {
    hide Unescape, HexEscapeAll;
    forall i | 0 < i < StepLen(s) ensures s[i] != BACKSLASH {
      TailsInside(s, i);
    }
    if StartsClean(unsafe, s) {
      UnescapePlain(s[..StepLen(s)], rest);
    } else {
      UnescapeHex(s[..StepLen(s)], rest);
    }
  }

  /** The raw text holds no literal escape anywhere. */
  predicate NoEscapeText(s: seq<byte>) {
    forall i :: 0 <= i < |s| ==> !StartsEscape(s[i..])
  }

  lemma {:induction false} UnescapeFixed(s: seq<byte>)
    ensures Unescape(s) == s <==> NoEscapeText(s)
    decreases |s|
  {
    hide StartsEscape;
    if s != [] {
      assert s[0..] == s;
      assert forall i :: 0 <= i < |s[1..]| ==> s[1..][i..] == s[i + 1..];
      UnescapeFixed(s[1..]);
      if StartsEscape(s) {
        StartsEscapeShrinks(s);
      } else {
        assert Unescape(s)[1..] == Unescape(s[1..]);
        if NoEscapeText(s[1..]) {
          forall i | 0 <= i < |s| ensures !StartsEscape(s[i..]) {
            assert i > 0 ==> s[i..] == s[1..][i - 1..];
          }
        }
      }
    }
  }

  /** Reading every "\xNN" back returns the raw text exactly when it held no literal "\xNN". */
  lemma {:induction false} RawTextRecovered(unsafe: RunePolicy, s: seq<byte>)
    ensures Unescape(Escape(unsafe, s)) == s <==> NoEscapeText(s)
  {
    UnescapeAbsorbsEscape(unsafe, s);
    UnescapeFixed(s);
  }

  /** Different texts that look the same once sanitised: one of them held a literal "\xNN". So on texts
      without one the output determines the raw bytes. */
  lemma {:induction false} SameOutput(unsafe: RunePolicy, a: seq<byte>, b: seq<byte>)
    requires Escape(unsafe, a) == Escape(unsafe, b)
    ensures Unescape(a) == Unescape(b)
    ensures a != b ==> !NoEscapeText(a) || !NoEscapeText(b)
  {
    hide Escape, Unescape, NoEscapeText;
    UnescapeAbsorbsEscape(unsafe, a);
    UnescapeAbsorbsEscape(unsafe, b);
    UnescapeFixed(a);
    UnescapeFixed(b);
  }

  /** Every text that sanitising changes looks the same, once sanitised, as some other text, which does
      hold a literal "\xNN"; the raw byte 1 and its spelling are such a pair. */
  lemma {:induction false} OutputShared(unsafe: RunePolicy, s: seq<byte>) returns (other: seq<byte>)
    requires !Clean(unsafe, s)
    ensures other != s && Escape(unsafe, other) == Escape(unsafe, s)
    ensures NoEscapeText(s) ==> !NoEscapeText(other)
    ensures s == [1] ==> other == HexEscape(1)
  {
    hide Escape, Unescape, NoEscapeText, Clean;
    other := Escape(unsafe, s);
    EscapeFixesExactlyClean(unsafe, s);
    SameOutput(unsafe, s, other);
    ByteOneEscaped(unsafe);
  }

  lemma {:induction false} ByteOneEscaped(unsafe: RunePolicy)
    ensures Escape(unsafe, [1]) == HexEscape(1)
  {
  }
}
