/** The control-byte sanitiser: every C0/DEL byte, every ill-formed byte and every byte of a rune the
    policy refuses becomes a visible \xNN escape; everything else passes through. */
module Sanitize {
  import opened Utf8

  /** The shared non-ASCII predicate. Nothing is known of it but that it spares ASCII, so every
      result below holds for every such predicate. */
  type RunePolicy = f: int -> bool | (forall r :: 0 <= r < RUNE_SELF ==> !f(r)) witness (r: int) => false

  predicate IsC0OrDEL(b: byte) {
    (b < 0x20 && b != NEWLINE && b != TAB) || b == DEL
  }

  // ----- what clean text is -----

  predicate NoControl(s: seq<byte>) {
    forall i :: 0 <= i < |s| ==> !IsC0OrDEL(s[i])
  }

  /** No rune of the text is refused by the policy. */
  predicate NoUnsafeRune(unsafe: RunePolicy, s: seq<byte>)
    decreases |s|
  {
    s == [] || (!unsafe(DecodeRune(s).r) && NoUnsafeRune(unsafe, s[DecodeRune(s).size..]))
  }

  predicate Clean(unsafe: RunePolicy, s: seq<byte>) {
    WellFormed(s) && NoControl(s) && NoUnsafeRune(unsafe, s)
  }

  // ----- the escape -----

  const HEX_DIGITS := "0123456789abcdef"

  /** The value a lower-case hexadecimal digit stands for. */
  function HexValue(c: byte): int {
    if 0x30 <= c <= 0x39 then c - 0x30 else if 0x61 <= c <= 0x66 then c - 0x61 + 10 else -1
  }

  function HexDigit(d: int): (c: byte)
    requires 0 <= d < 16
    ensures HexValue(c) == d
  {
    HEX_DIGITS[d] as int
  }

  /** The visible "\xNN" form of one byte: printable, and the byte can be read back from it. */
  function HexEscape(b: byte): (e: seq<byte>)
    ensures |e| == 4 && forall i :: 0 <= i < 4 ==> 0x20 <= e[i] < DEL
    ensures e[0] == 0x5C && e[1] == 0x78 && HexValue(e[2]) * 16 + HexValue(e[3]) == b
  {
    ['\\' as int, 'x' as int, HexDigit(b / 16), HexDigit(b % 16)]
  }

  function HexEscapeAll(s: seq<byte>): (e: seq<byte>)
    ensures |e| == 4 * |s|
  {
    if s == [] then [] else HexEscapeAll(s[..|s| - 1]) + HexEscape(s[|s| - 1])
  }

  /** How many bytes one decoding step consumes: a whole character, or one ill-formed byte. */
  function StepLen(s: seq<byte>): (n: nat)
    requires s != []
    ensures 1 <= n <= |s|
  {
    DecodeRune(s).size
  }

  /** The text starts with a character that may be forwarded as it is. */
  predicate StartsClean(unsafe: RunePolicy, s: seq<byte>) {
    CharLen(s) > 0 && !IsC0OrDEL(s[0]) && !unsafe(CharValue(s))
  }

  function EscapeHead(unsafe: RunePolicy, s: seq<byte>): (e: seq<byte>)
    requires s != []
    ensures StepLen(s) <= |e| <= 4 * StepLen(s)
  {
    var head := s[..StepLen(s)];
    if StartsClean(unsafe, s) then head else HexEscapeAll(head)
  }

  function Escape(unsafe: RunePolicy, s: seq<byte>): (e: seq<byte>)
    ensures |s| <= |e| <= 4 * |s|
    decreases |s|
  {
    if s == [] then [] else EscapeHead(unsafe, s) + Escape(unsafe, s[StepLen(s)..])
  }

  // ----- the loops -----

  method ContainsUnsafeRune(unsafe: RunePolicy, p: seq<byte>) returns (found: bool)
    ensures found <==> !NoUnsafeRune(unsafe, p)
  {
    hide CharLen, CharValue;
    var i := 0;
    while i < |p|
      invariant 0 <= i <= |p|
      invariant NoUnsafeRune(unsafe, p) == NoUnsafeRune(unsafe, p[i..])
    {
      var d := DecodeRune(p[i..]);
      if unsafe(d.r) {
        return true;
      }
      assert p[i..][d.size..] == p[i + d.size..];
      i := i + d.size;
    }
    return false;
  }

  /** The output so far is what the specification makes of the input read so far. */
  ghost predicate Escaped(unsafe: RunePolicy, line: seq<byte>, i: nat, out: seq<byte>)
    requires i <= |line|
  {
    out + Escape(unsafe, line[i..]) == Escape(unsafe, line)
  }

  method EscapeControlBytes(unsafe: RunePolicy, line: seq<byte>) returns (out: seq<byte>)
    ensures out == Escape(unsafe, line)
  {
    hide Escape, Escaped, EscapeHead, HexEscape, DecodeRune, HexEscapeAll, IsC0OrDEL, StepLen;
    EscapedStart(unsafe, line);
    out := [];
    var i := 0;
    while i < |line|
      invariant 0 <= i <= |line|
      invariant Escaped(unsafe, line, i, out)
    {
      var b := line[i];
      ghost var rest := line[i..];
      EscapedNext(unsafe, line, i, out);
      HeadCases(unsafe, rest);
      if IsC0OrDEL(b) {
        out := out + HexEscape(b);
        i := i + 1;
        continue;
      }
      if b < RUNE_SELF {
        out := out + [b];
        i := i + 1;
        continue;
      }
      var d := DecodeRune(line[i..]);
      if (d.r == RUNE_ERROR && d.size == 1) || unsafe(d.r) {
        ghost var done := out;
        HexEscapeAllEmpty();
        for j := 0 to d.size
          invariant out == done + HexEscapeAll(rest[..j])
        {
          HexEscapeAllNext(rest, j);
          out := out + HexEscape(line[i + j]);
        }
        i := i + d.size;
        continue;
      }
      assert line[i..i + d.size] == rest[..d.size];
      out := out + line[i..i + d.size];
      i := i + d.size;
    }
    EscapedEnd(unsafe, line, i, out);
  }

  lemma {:induction false} EscapedStart(unsafe: RunePolicy, line: seq<byte>)
    ensures Escaped(unsafe, line, 0, [])
  {
    assert line[0..] == line;
  }

  lemma {:induction false} EscapedEnd(unsafe: RunePolicy, line: seq<byte>, i: nat, out: seq<byte>)
    requires i == |line| && Escaped(unsafe, line, i, out)
    ensures out == Escape(unsafe, line)
  {
  }

  lemma {:induction false} HexEscapeAllEmpty()
    ensures HexEscapeAll([]) == []
  {
  }

  lemma {:induction false} HexEscapeAllNext(s: seq<byte>, j: nat)
    requires j < |s|
    ensures HexEscapeAll(s[..j + 1]) == HexEscapeAll(s[..j]) + HexEscape(s[j])
  {
    assert s[..j + 1][..j] == s[..j];
  }

  /** One turn of the loop appends what the specification makes of the next decoding step. */
  lemma {:induction false} EscapedNext(unsafe: RunePolicy, line: seq<byte>, i: nat, out: seq<byte>)
    requires i < |line| && Escaped(unsafe, line, i, out)
    ensures i + StepLen(line[i..]) <= |line|
    ensures Escaped(unsafe, line, i + StepLen(line[i..]), out + EscapeHead(unsafe, line[i..]))
  {
    hide CharLen, CharValue, EscapeHead;
    assert line[i..][StepLen(line[i..])..] == line[i + StepLen(line[i..])..];
  }

  /** The cases of the loop body are the two cases of the specification. */
  lemma {:induction false} HeadCases(unsafe: RunePolicy, s: seq<byte>)
    requires s != []
    ensures s[0] < RUNE_SELF ==>
              StepLen(s) == 1 && EscapeHead(unsafe, s) == if IsC0OrDEL(s[0]) then HexEscape(s[0]) else [s[0]]
    ensures IsC0OrDEL(s[0]) ==> s[0] < RUNE_SELF
    ensures s[0] >= RUNE_SELF ==>
              var d := DecodeRune(s);
              d.size == StepLen(s) && EscapeHead(unsafe, s) ==
              if (d.r == RUNE_ERROR && d.size == 1) || unsafe(d.r) then HexEscapeAll(s[..d.size]) else s[..d.size]
  {
    if s[0] < RUNE_SELF {
      assert s[..1] == [s[0]];
      assert HexEscapeAll([s[0]]) == HexEscapeAll([s[0]][..0]) + HexEscape(s[0]) == HexEscape(s[0]);
    }
  }

  /** The entry point: a clean line is returned as it is, any other goes through the slow path. The
      result is the slow path's on every input, so the fast path is unobservable. */
  method SanitizeControlBytes(unsafe: RunePolicy, line: seq<byte>) returns (out: seq<byte>)
    ensures out == Escape(unsafe, line)
  {
    if WellFormed(line) && !(exists i :: 0 <= i < |line| && IsC0OrDEL(line[i])) {
      var found := ContainsUnsafeRune(unsafe, line);
      if !found {
        EscapeKeepsClean(unsafe, line);
        return line;
      }
    }
    out := EscapeControlBytes(unsafe, line);
  }

  // ----- laws of the escape -----

  /** The fast path's guard is enough for the slow path to change nothing. */
  lemma {:induction false} EscapeKeepsClean(unsafe: RunePolicy, s: seq<byte>)
    requires Clean(unsafe, s)
    ensures Escape(unsafe, s) == s
    decreases |s|
  {
    if s != [] {
      var n := CharLen(s);
      assert s[..n] + s[n..] == s;
      EscapeKeepsClean(unsafe, s[n..]);
    }
  }

  /** A clean character ahead of a clean text is a clean text. */
  lemma {:induction false} CleanPrepend(unsafe: RunePolicy, c: seq<byte>, t: seq<byte>)
    requires CharLen(c) == |c| > 0 && NoControl(c) && !unsafe(CharValue(c))
    requires Clean(unsafe, t)
    ensures Clean(unsafe, c + t)
  {
    CharLenExtends(c, t);
    assert (c + t)[|c|..] == t;
  }

  lemma {:induction false} PrintablePrepend(unsafe: RunePolicy, b: byte, t: seq<byte>)
    requires 0x20 <= b < DEL && Clean(unsafe, t)
    ensures Clean(unsafe, [b] + t)
  {
    CleanPrepend(unsafe, [b], t);
  }

  lemma {:induction false} PrintableFour(unsafe: RunePolicy, e: seq<byte>, t: seq<byte>)
    requires |e| == 4 && (forall i :: 0 <= i < 4 ==> 0x20 <= e[i] < DEL) && Clean(unsafe, t)
    ensures Clean(unsafe, e + t)
  {
    hide Clean;
    PrintablePrepend(unsafe, e[3], t);
    PrintablePrepend(unsafe, e[2], [e[3]] + t);
    PrintablePrepend(unsafe, e[1], [e[2]] + ([e[3]] + t));
    PrintablePrepend(unsafe, e[0], [e[1]] + ([e[2]] + ([e[3]] + t)));
    assert [e[0]] + ([e[1]] + ([e[2]] + ([e[3]] + t))) == e + t;
  }

  lemma {:induction false} HexEscapeClean(unsafe: RunePolicy, s: seq<byte>, t: seq<byte>)
    requires Clean(unsafe, t)
    ensures Clean(unsafe, HexEscapeAll(s) + t)
  {
    hide Clean, HexEscape;
    if s == [] {
      assert HexEscapeAll(s) + t == t;
    } else {
      var e := HexEscape(s[|s| - 1]);
      PrintableFour(unsafe, e, t);
      HexEscapeClean(unsafe, s[..|s| - 1], e + t);
      assert HexEscapeAll(s) + t == HexEscapeAll(s[..|s| - 1]) + (e + t);
    }
  }

  /** Whatever the bytes, the result is well-formed UTF-8 with no control byte and no refused rune. */
  lemma {:induction false} EscapeClean(unsafe: RunePolicy, s: seq<byte>)
    ensures Clean(unsafe, Escape(unsafe, s))
    decreases |s|
  {
    if s != [] {
      var n := StepLen(s);
      var t := Escape(unsafe, s[n..]);
      EscapeClean(unsafe, s[n..]);
      if StartsClean(unsafe, s) {
        assert s[..n] + s[n..] == s;
        CharLenExtends(s[..n], s[n..]);
        HeadNoControl(s);
        CleanPrepend(unsafe, s[..n], t);
      } else {
        HexEscapeClean(unsafe, s[..n], t);
      }
    }
  }

  lemma {:induction false} HeadNoControl(s: seq<byte>)
    requires CharLen(s) > 0 && !IsC0OrDEL(s[0])
    ensures NoControl(s[..CharLen(s)])
  {
    forall i | 0 < i < CharLen(s) ensures !IsC0OrDEL(s[i]) {
      TailsInside(s, i);
    }
  }

  /** The escape changes a text exactly when the text is not clean, and never changes its own output. */
  lemma {:induction false} EscapeFixesExactlyClean(unsafe: RunePolicy, s: seq<byte>)
    ensures Escape(unsafe, s) == s <==> Clean(unsafe, s)
    ensures Escape(unsafe, Escape(unsafe, s)) == Escape(unsafe, s)
  {
    EscapeClean(unsafe, s);
    EscapeKeepsClean(unsafe, Escape(unsafe, s));
    if Clean(unsafe, s) {
      EscapeKeepsClean(unsafe, s);
    }
  }

  // ----- the escape, byte by byte -----

  /** The bytes that may reach a terminal as they are: tab, newline and the printable ones of ASCII. */
  predicate IsPlain(b: byte) {
    b == 9 || b == 10 || 0x20 <= b <= 0x7E
  }

  /** No output byte is a control byte: each is a tab, a newline, or at least 0x20 and not 0x7F. */
  lemma {:induction false} OutputBytesSafe(unsafe: RunePolicy, s: seq<byte>)
    ensures forall i :: 0 <= i < |Escape(unsafe, s)| ==>
              var b := Escape(unsafe, s)[i]; (b == 9 || b == 10 || b >= 0x20) && b != 0x7F
  {
    hide Escape, WellFormed, NoUnsafeRune;
    EscapeClean(unsafe, s);
  }

  /** An ASCII byte is kept if it is plain and spelled out in lower-case hexadecimal if it is not, and
      what follows is escaped on its own. */
  lemma {:induction false} AsciiByteEscaped(unsafe: RunePolicy, b: byte, rest: seq<byte>)
    requires b < 0x80
    ensures Escape(unsafe, [b] + rest)
            == (if IsPlain(b) then [b]
                else Ascii("\\x") + Ascii(["0123456789abcdef"[b / 16], "0123456789abcdef"[b % 16]])) + Escape(unsafe, rest)
  {
    hide Escape, EscapeHead, HexEscape;
    var s := [b] + rest;
    assert s[1..] == rest;
    HeadCases(unsafe, s);
    EscapeNext(unsafe, s);
    HexEscapeSpelled(b);
  }

  lemma {:induction false} EscapeNext(unsafe: RunePolicy, s: seq<byte>)
    requires s != []
    ensures Escape(unsafe, s) == EscapeHead(unsafe, s) + Escape(unsafe, s[StepLen(s)..])
  {
  }

  lemma {:induction false} HexEscapeSpelled(b: byte)
    ensures b < 0x80 ==>
              HexEscape(b) == Ascii("\\x") + Ascii(["0123456789abcdef"[b / 16], "0123456789abcdef"[b % 16]])
  {
  }

  /** A text of plain bytes is its own escape. */
  lemma {:induction false} PlainTextKept(unsafe: RunePolicy, s: seq<byte>)
    requires forall i :: 0 <= i < |s| ==> s[i] == 9 || s[i] == 10 || 0x20 <= s[i] <= 0x7E
    ensures Escape(unsafe, s) == s
  {
    hide Escape;
    if s == [] {
      EscapedStart(unsafe, []);
      EscapedEnd(unsafe, [], 0, []);
    } else {
      PlainTextKept(unsafe, s[1..]);
      AsciiByteEscaped(unsafe, s[0], s[1..]);
      assert [s[0]] + s[1..] == s;
    }
  }

  // ----- cutting -----

  /** Text may be cut for escaping behind any ASCII byte (a line end above all): no ill-formed or
      truncated sequence ahead of the cut can swallow what follows it. */
  predicate CutPoint(a: seq<byte>) {
    a == [] || a[|a| - 1] < RUNE_SELF
  }

  lemma {:induction false} HeadAtCut(unsafe: RunePolicy, a: seq<byte>, b: seq<byte>)
    requires a != [] && CutPoint(a)
    ensures StepLen(a + b) == StepLen(a) && EscapeHead(unsafe, a + b) == EscapeHead(unsafe, a)
  {
    assert (a + b)[..StepLen(a)] == a[..StepLen(a)];
    CharLenExtends(a, b);
    if CharLen(a + b) > |a| {
      if |a| > 1 {
        TailsInside(a + b, |a| - 1);
      }
    }
  }

  lemma {:induction false} EscapeConcat(unsafe: RunePolicy, a: seq<byte>, b: seq<byte>)
    requires CutPoint(a)
    ensures Escape(unsafe, a + b) == Escape(unsafe, a) + Escape(unsafe, b)
    decreases |a|
  {
    hide EscapeHead, StepLen, HexEscapeAll;
    if a == [] {
      assert a + b == b;
    } else {
      var n := StepLen(a);
      HeadAtCut(unsafe, a, b);
      assert (a + b)[n..] == a[n..] + b;
      EscapeConcat(unsafe, a[n..], b);
    }
  }

  lemma {:induction false} CleanConcat(unsafe: RunePolicy, a: seq<byte>, b: seq<byte>)
    requires Clean(unsafe, a) && Clean(unsafe, b)
    ensures Clean(unsafe, a + b)
    decreases |a|
  {
    hide CharLen, CharValue;
    if a == [] {
      assert a + b == b;
    } else {
      var n := CharLen(a);
      assert a[..n] + a[n..] == a;
      CharLenExtends(a[..n], a[n..]);
      CleanConcat(unsafe, a[n..], b);
      CleanPrepend(unsafe, a[..n], a[n..] + b);
      assert a[..n] + (a[n..] + b) == a + b;
    }
  }
}
