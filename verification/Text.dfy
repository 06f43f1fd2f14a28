/** Text functions of the Go standard library over rune strings: white space, fields, decimal numbers. */
module Text {

  /** White_Space of the Unicode character database. */
  predicate IsSpaceRune(r: int) {
    9 <= r <= 13 || r in {0x20, 0x85, 0xA0, 0x1680, 0x2028, 0x2029, 0x202F, 0x205F, 0x3000} || 0x2000 <= r <= 0x200A
  }

  /** `unicode.IsSpace`. */
  predicate IsSpace(c: char) {
    IsSpaceRune(c as int)
  }

  /** `strings.ToLower` and `strings.ToUpper`, given what they do to one rune. */
  function MapRunes(f: char -> char, s: string): (r: string)
    ensures |r| == |s| && forall i :: 0 <= i < |s| ==> r[i] == f(s[i])
  {
    seq(|s|, i requires 0 <= i < |s| => f(s[i]))
  }

  predicate NoSpace(s: string) {
    forall i :: 0 <= i < |s| ==> !IsSpace(s[i])
  }

  predicate IsWord(s: string) {
    s != "" && NoSpace(s)
  }

  function TrimLeft(s: string): (t: string) {
    if s != "" && IsSpace(s[0]) then TrimLeft(s[1..]) else s
  }

  function TrimRight(s: string): (t: string) {
    if s != "" && IsSpace(s[|s| - 1]) then TrimRight(s[..|s| - 1]) else s
  }

  /** `strings.TrimSpace`. */
  function TrimSpace(s: string): string {
    TrimRight(TrimLeft(s))
  }

  function Nonempty(w: string): seq<string> {
    if w == "" then [] else [w]
  }

  /** The fields of `open + s` when `open` holds no white space. */
  function FieldsFrom(open: string, s: string): seq<string>
    decreases |s|
  {
    if s == "" then Nonempty(open)
    else if IsSpace(s[0]) then Nonempty(open) + FieldsFrom("", s[1..])
    else FieldsFrom(open + [s[0]], s[1..])
  }

  /** `strings.Fields`: the maximal runs of non-white-space runes. */
  function Fields(s: string): seq<string> {
    FieldsFrom("", s)
  }

  lemma {:induction false} FieldsFromWord(open: string, w: string, rest: string)
    requires NoSpace(w)
    ensures FieldsFrom(open, w + rest) == FieldsFrom(open + w, rest)
    decreases |w|
  {
    if w == "" {
      assert w + rest == rest && open + w == open;
    } else {
      assert (w + rest)[1..] == w[1..] + rest;
      FieldsFromWord(open + [w[0]], w[1..], rest);
      assert open + [w[0]] + w[1..] == open + w;
    }
  }

  /** A word followed by white space is the first field; a word alone is the only one. */
  lemma {:induction false} FieldsCons(w: string, space: char, rest: string)
    requires IsWord(w) && IsSpace(space)
    ensures Fields(w + ([space] + rest)) == [w] + Fields(rest)
    ensures Fields(w) == [w]
  {
    FieldsFromWord("", w, [space] + rest);
    FieldsFromWord("", w, "");
    assert "" + w == w && w + "" == w && ([space] + rest)[1..] == rest;
  }

  /** `strings.Join(ws, " ")` of at least one word. */
  function JoinSpace(ws: seq<string>): string
    requires |ws| > 0
  {
    if |ws| == 1 then ws[0] else ws[0] + ([' '] + JoinSpace(ws[1..]))
  }

  lemma {:induction false} FieldsOfJoined(ws: seq<string>)
    requires |ws| > 0 && forall i :: 0 <= i < |ws| ==> IsWord(ws[i])
    ensures Fields(JoinSpace(ws)) == ws
  {
    hide Fields, IsWord;
    assert IsWord(ws[0]) && IsSpace(' ');
    if |ws| == 1 {
      FieldsCons(ws[0], ' ', "");
    } else {
      forall i | 0 <= i < |ws[1..]| ensures IsWord(ws[1..][i]) {
        assert ws[1..][i] == ws[i + 1];
      }
      FieldsOfJoined(ws[1..]);
      FieldsCons(ws[0], ' ', JoinSpace(ws[1..]));
    }
  }

  /** Fields are words, and the first one starts where the text does unless that is white space. */
  lemma {:induction false} FieldsAreWords(open: string, s: string)
    requires NoSpace(open)
    ensures forall i :: 0 <= i < |FieldsFrom(open, s)| ==> IsWord(FieldsFrom(open, s)[i])
    ensures open != "" ==> FieldsFrom(open, s) != [] && FieldsFrom(open, s)[0] != "" && open[0] == FieldsFrom(open, s)[0][0]
    decreases |s|
  {
    if s != "" {
      if IsSpace(s[0]) {
        FieldsAreWords("", s[1..]);
      } else {
        FieldsAreWords(open + [s[0]], s[1..]);
      }
    }
  }

  predicate Printable(s: string) {
    s != "" && forall i :: 0 <= i < |s| ==> '!' <= s[i] <= '~'
  }

  /** Which runes part two fields: of ASCII the space, the tab and the line and page breaks, and beyond it
      the no-break, the ideographic and the other spaces of Unicode; a printable one parts none. */
  lemma {:induction false} FieldsParted(v: string, c: char, w: string)
    requires Printable(v) && Printable(w)
    ensures c as int in {9, 10, 11, 12, 13, 32, 0xA0, 0x2003, 0x3000} ==> Fields(v + [c] + w) == [v, w]
    ensures '!' <= c <= '~' ==> Fields(v + [c] + w) == [v + [c] + w]
  {
    hide Fields;
    assert IsWord(v) && IsWord(w);
    assert v + [c] + w == v + ([c] + w);
    if IsSpace(c) {
      FieldsCons(v, c, w);
      FieldsCons(w, ' ', "");
    } else {
      FieldsCons(v + [c] + w, ' ', "");
    }
  }

  lemma {:induction false} FieldsTrimmedLeft(s: string)
    ensures Fields(TrimLeft(s)) == Fields(s)
  {
    if s != "" && IsSpace(s[0]) {
      FieldsTrimmedLeft(s[1..]);
    }
  }

  lemma {:induction false} FieldsBeforeSpace(open: string, s: string, c: char)
    requires IsSpace(c)
    ensures FieldsFrom(open, s + [c]) == FieldsFrom(open, s)
    decreases |s|
  {
    var t := s + [c];
    if s == "" {
      assert t[1..] == "" && t[0] == c;
    } else {
      assert t[1..] == s[1..] + [c];
      FieldsBeforeSpace("", s[1..], c);
      FieldsBeforeSpace(open + [s[0]], s[1..], c);
    }
  }

  lemma {:induction false} FieldsTrimmedRight(s: string)
    ensures Fields(TrimRight(s)) == Fields(s)
  {
    hide FieldsFrom;
    if s != "" && IsSpace(s[|s| - 1]) {
      var r := s[..|s| - 1];
      FieldsTrimmedRight(r);
      FieldsBeforeSpace("", r, s[|s| - 1]);
      assert r + [s[|s| - 1]] == s;
    }
  }

  lemma {:induction false} TrimKeepsWord(s: string)
    requires s != "" && !IsSpace(s[0]) && !IsSpace(s[|s| - 1])
    ensures TrimSpace(s) == s
  {
  }

  /** Text that opens with no white space keeps its front when its end is trimmed. */
  lemma {:induction false} TrimRightKeepsFront(a: string, b: string)
    requires a != "" && !IsSpace(a[|a| - 1])
    ensures TrimRight(a + b) == a + TrimRight(b)
    decreases |b|
  {
    if b == "" {
      assert a + b == a;
    } else if IsSpace(b[|b| - 1]) {
      assert (a + b)[..|a + b| - 1] == a + b[..|b| - 1];
      TrimRightKeepsFront(a, b[..|b| - 1]);
    }
  }

  /** Trimming leaves no white space at either end, and takes nothing else. */
  lemma {:induction false} TrimSpaceTrims(s: string)
    ensures var t := TrimSpace(s); t != "" ==> !IsSpace(t[0]) && !IsSpace(t[|t| - 1])
    ensures TrimSpace(s) == "" <==> (forall i :: 0 <= i < |s| ==> IsSpace(s[i]))
  {
    TrimLeftSplits(s);
    TrimRightSplits(TrimLeft(s));
  }

  lemma {:induction false} TrimLeftSplits(s: string)
    ensures var t := TrimLeft(s);
            && |t| <= |s| && t == s[|s| - |t|..] && (t != "" ==> !IsSpace(t[0]))
            && (forall i :: 0 <= i < |s| - |t| ==> IsSpace(s[i]))
  {
    if s != "" && IsSpace(s[0]) {
      TrimLeftSplits(s[1..]);
      assert forall i :: 0 < i < |s| ==> s[i] == s[1..][i - 1];
    }
  }

  lemma {:induction false} TrimRightSplits(s: string)
    ensures var t := TrimRight(s);
            && |t| <= |s| && t == s[..|t|] && (t != "" ==> !IsSpace(t[|t| - 1]))
            && (forall i :: |t| <= i < |s| ==> IsSpace(s[i]))
  {
    if s != "" && IsSpace(s[|s| - 1]) {
      TrimRightSplits(s[..|s| - 1]);
    }
  }

  // ----- decimal numbers -----

  predicate IsDigit(c: char) {
    '0' <= c <= '9'
  }

  predicate IsDigits(s: string) {
    s != "" && forall i :: 0 <= i < |s| ==> IsDigit(s[i])
  }

  function DigitValue(c: char): nat
    requires IsDigit(c)
  {
    c as int - '0' as int
  }

  function Digit(d: nat): (c: char)
    requires d < 10
    ensures IsDigit(c) && DigitValue(c) == d
  {
    (d + '0' as int) as char
  }

  /** The number a string of digits denotes. */
  function DigitsValue(s: string): nat
    requires forall i :: 0 <= i < |s| ==> IsDigit(s[i])
  {
    if s == "" then 0 else DigitsValue(s[..|s| - 1]) * 10 + DigitValue(s[|s| - 1])
  }

  /** The decimal digits of a number, as %d prints them. */
  function Itoa(n: nat): (s: string)
    ensures IsDigits(s)
  {
    if n < 10 then [Digit(n)] else Itoa(n / 10) + [Digit(n % 10)]
  }

  lemma {:induction false} ItoaValue(n: nat)
    ensures DigitsValue(Itoa(n)) == n
  {
    var s := Itoa(n);
    if n < 10 {
      assert s[..0] == "";
    } else {
      ItoaValue(n / 10);
      assert s[..|s| - 1] == Itoa(n / 10);
    }
  }

  lemma {:induction false} DigitsAreWord(s: string)
    requires IsDigits(s)
    ensures IsWord(s)
  {
  }
}
