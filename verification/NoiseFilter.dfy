/** The noise filter over fclones' own diagnostics: the level is read positionally behind the first
    "fclones:", and a line is dropped only for a marker registered at that very level. */
module NoiseFilter {
  import opened Search
  import opened Utf8
  import Text

  const PREFIX := Ascii("fclones:")
  const COLON := Ascii(":")
  const SPACE: byte := 0x20
  const INFO := Ascii("info")
  const WARN := Ascii("warn")
  const FILE_SYSTEM := Ascii("File system ")
  const FIEMAP := Ascii("doesn't support FIEMAP ioctl API")

  /** A body substring that marks noise; a non-empty prefix must also open the body. */
  datatype NoiseMarker = NoiseMarker(substr: seq<byte>, prefix: seq<byte>)

  const INFO_PROGRESS: seq<NoiseMarker> := [
    NoiseMarker(Ascii("Started grouping"), []),
    NoiseMarker(Ascii("Started deduplicating"), []),
    NoiseMarker(Ascii("Scanned "), []),
    NoiseMarker(Ascii("Found "), [])
  ]
  const WARN_NOISE: seq<NoiseMarker> := [NoiseMarker(FIEMAP, FILE_SYSTEM)]

  /** The markers registered for a level; none for an unknown level. */
  function PatternsFor(level: seq<byte>): seq<NoiseMarker> {
    if level == INFO then INFO_PROGRESS else if level == WARN then WARN_NOISE else []
  }

  function TrimLeftSpaces(s: seq<byte>): seq<byte> {
    if s != [] && s[0] == SPACE then TrimLeftSpaces(s[1..]) else s
  }

  // ----- strings.TrimSpace over raw bytes -----

  /** The text is the encoding of one white-space character. */
  predicate IsSpaceChar(s: seq<byte>) {
    s != [] && CharLen(s) == |s| && Text.IsSpaceRune(CharValue(s))
  }

  function TrimSpaceLeft(s: seq<byte>): seq<byte>
    decreases |s|
  {
    if CharLen(s) > 0 && IsSpaceChar(s[..CharLen(s)]) then TrimSpaceLeft(s[CharLen(s)..]) else s
  }

  /** White-space characters take at most three bytes. */
  function TrimSpaceRight(s: seq<byte>): seq<byte>
    decreases |s|
  {
    if |s| >= 1 && IsSpaceChar(s[|s| - 1..]) then TrimSpaceRight(s[..|s| - 1])
    else if |s| >= 2 && IsSpaceChar(s[|s| - 2..]) then TrimSpaceRight(s[..|s| - 2])
    else if |s| >= 3 && IsSpaceChar(s[|s| - 3..]) then TrimSpaceRight(s[..|s| - 3])
    else s
  }

  function TrimSpace(s: seq<byte>): seq<byte> {
    TrimSpaceRight(TrimSpaceLeft(s))
  }

  // ----- the filter -----

  predicate Matches(m: NoiseMarker, body: seq<byte>) {
    (m.prefix == [] || HasPrefix(body, m.prefix)) && Contains(body, m.substr)
  }

  predicate AnyMatches(patterns: seq<NoiseMarker>, body: seq<byte>) {
    exists i :: 0 <= i < |patterns| && Matches(patterns[i], body)
  }

  predicate ShouldFilterLine(line: seq<byte>) {
    match Cut(line, PREFIX)
    case NotFound => false
    case Found(_, after) =>
      match Cut(TrimLeftSpaces(after), COLON)
      case NotFound => false
      case Found(level, msg) =>
        var body := TrimLeftSpaces(msg);
        AnyMatches(PatternsFor(TrimSpace(level)), body)
  }

  // ----- what it drops -----

  /** Progress noise at info level, or the FIEMAP notice at warn level in fclones' own framing. */
  predicate IsNoise(level: seq<byte>, body: seq<byte>) {
    (level == Ascii("info") && IsProgress(body)) || (level == Ascii("warn") && IsFiemapNotice(body))
  }

  predicate IsProgress(body: seq<byte>) {
    Contains(body, Ascii("Started grouping")) || Contains(body, Ascii("Started deduplicating"))
    || Contains(body, Ascii("Scanned ")) || Contains(body, Ascii("Found "))
  }

  predicate IsFiemapNotice(body: seq<byte>) {
    Ascii("File system ") <= body && Contains(body, Ascii("doesn't support FIEMAP ioctl API"))
  }

  predicate AllSpaces(s: seq<byte>) {
    forall i :: 0 <= i < |s| ==> s[i] == 0x20
  }

  /** A line in fclones' framing: text ahead, "fclones:", spaces, the level, ":" and the message. */
  ghost predicate Framed(line: seq<byte>, ahead: seq<byte>, pad: seq<byte>, level: seq<byte>, msg: seq<byte>) {
    && line == ahead + Ascii("fclones:") + (pad + (level + Ascii(":") + msg))
    && !Contains(ahead, Ascii("fclones:"))
    && AllSpaces(pad)
    && 0x3A !in level && !(level != [] && level[0] == 0x20)
  }

  lemma {:induction false} TrimLeftSpacesSkips(pad: seq<byte>, rest: seq<byte>)
    requires AllSpaces(pad) && !(rest != [] && rest[0] == SPACE)
    ensures TrimLeftSpaces(pad + rest) == rest
  {
    if pad == [] {
      assert pad + rest == rest;
    } else {
      assert (pad + rest)[1..] == pad[1..] + rest;
      TrimLeftSpacesSkips(pad[1..], rest);
    }
  }

  lemma {:induction false} TrimLeftSpacesSplits(s: seq<byte>) returns (pad: seq<byte>)
    ensures AllSpaces(pad) && s == pad + TrimLeftSpaces(s)
    ensures TrimLeftSpaces(s) != [] ==> TrimLeftSpaces(s)[0] != SPACE
  {
    if s != [] && s[0] == SPACE {
      var p := TrimLeftSpacesSplits(s[1..]);
      pad := [SPACE] + p;
    } else {
      pad := [];
    }
  }

  lemma {:induction false} NoColonNotContained(level: seq<byte>)
    ensures COLON[0] !in level <==> !Contains(level, COLON)
  {
    if COLON[0] in level {
      var k :| 0 <= k < |level| && level[k] == COLON[0];
      assert OccursAt(level, COLON, k);
    }
    if Contains(level, COLON) {
      var k := Index(level, COLON);
      assert level[k..k + 1][0] == COLON[0];
    }
  }

  lemma {:induction false} PatternsAreNoise(level: seq<byte>, body: seq<byte>)
    ensures AnyMatches(PatternsFor(level), body) <==> IsNoise(level, body)
  {
    InfoPatterns(body);
    WarnPatterns(body);
    NoPatterns(body);
    hide IsProgress, IsFiemapNotice, AnyMatches;
    assert INFO != WARN by {
      assert INFO[0] != WARN[0];
    }
  }

  lemma {:induction false} NoPatterns(body: seq<byte>)
    ensures !AnyMatches([], body)
  {
  }

  lemma {:induction false} InfoPatterns(body: seq<byte>)
    ensures AnyMatches(INFO_PROGRESS, body) <==> IsProgress(body)
  {
    hide Contains;
    assert Matches(INFO_PROGRESS[0], body) == Contains(body, Ascii("Started grouping"));
    assert Matches(INFO_PROGRESS[1], body) == Contains(body, Ascii("Started deduplicating"));
    assert Matches(INFO_PROGRESS[2], body) == Contains(body, Ascii("Scanned "));
    assert Matches(INFO_PROGRESS[3], body) == Contains(body, Ascii("Found "));
  }

  lemma {:induction false} WarnPatterns(body: seq<byte>)
    ensures AnyMatches(WARN_NOISE, body) <==> IsFiemapNotice(body)
  {
    hide Contains;
    assert FILE_SYSTEM != [];
    assert Matches(WARN_NOISE[0], body) == IsFiemapNotice(body);
  }

  /** The filter reads the level where the framing puts it: no text ahead of the frame and no file
      name inside the message can change which level's markers apply. */
  lemma {:induction false} FramedDecision(line: seq<byte>, ahead: seq<byte>, pad: seq<byte>, level: seq<byte>,
                                          msg: seq<byte>)
    requires Framed(line, ahead, pad, level, msg)
    ensures ShouldFilterLine(line) <==> IsNoise(TrimSpace(level), TrimLeftSpaces(msg))
  {
    hide IsNoise, TrimSpace, PatternsFor, AnyMatches, TrimLeftSpaces;
    FirstOccurrence(ahead, PREFIX, pad + (level + COLON + msg));
    TrimLeftSpacesSkips(pad, level + COLON + msg);
    NoColonNotContained(level);
    FirstOccurrence(level, COLON, msg);
    PatternsAreNoise(TrimSpace(level), TrimLeftSpaces(msg));
  }

  /** Nothing else is dropped: every dropped line is in the framing and is noise at its level. */
  lemma {:induction false} DroppedIsFramedNoise(line: seq<byte>)
    returns (ahead: seq<byte>, pad: seq<byte>, level: seq<byte>, msg: seq<byte>)
    requires ShouldFilterLine(line)
    ensures Framed(line, ahead, pad, level, msg)
    ensures IsNoise(TrimSpace(level), TrimLeftSpaces(msg))
  {
    hide IsNoise, TrimSpace, PatternsFor, AnyMatches, TrimLeftSpaces;
    var c := Cut(line, PREFIX);
    ahead := c.before;
    CutSplits(line, PREFIX);
    pad := TrimLeftSpacesSplits(c.after);
    var rest := TrimLeftSpaces(c.after);
    var d := Cut(rest, COLON);
    level, msg := d.before, d.after;
    CutSplits(rest, COLON);
    NoColonNotContained(level);
    FramedDecision(line, ahead, pad, level, msg);
  }

  /** The text ahead of a cut does not hold the separator. */
  lemma {:induction false} CutSplits(s: seq<byte>, sep: seq<byte>)
    requires Cut(s, sep).Found? && sep != []
    ensures s == Cut(s, sep).before + sep + Cut(s, sep).after
    ensures !Contains(Cut(s, sep).before, sep)
  {
    var i := Index(s, sep);
    var a := s[..i];
    forall k: nat ensures !OccursAt(a, sep, k) {
      if k + |sep| <= |a| {
        assert a[k..k + |sep|] == s[k..k + |sep|];
        assert !OccursAt(s, sep, k);
      }
    }
  }

  // ----- the promises -----

  /** A word that opens and closes with printable ASCII has nothing to trim. */
  lemma {:induction false} TrimSpaceKeepsWord(s: seq<byte>)
    requires s != [] && 0x20 < s[0] < RUNE_SELF && 0x20 < s[|s| - 1] < RUNE_SELF
    ensures TrimSpace(s) == s
  {
    assert s[..CharLen(s)] == [s[0]];
    hide IsSpaceChar;
    assert !IsSpaceChar([s[0]]) by { ClosedByWord([s[0]]); }
    ClosedByWord(s[|s| - 1..]);
    if |s| >= 2 {
      ClosedByWord(s[|s| - 2..]);
    }
    if |s| >= 3 {
      ClosedByWord(s[|s| - 3..]);
    }
  }

  lemma {:induction false} ClosedByWord(e: seq<byte>)
    requires e != [] && 0x20 < e[|e| - 1] < RUNE_SELF
    ensures !IsSpaceChar(e)
  {
    if |e| > 1 && CharLen(e) == |e| {
      TailsInside(e, |e| - 1);
    }
  }

  /** A line in which fclones does not name itself is never dropped. */
  lemma {:induction false} UnframedNeverDropped(line: seq<byte>)
    requires !Contains(line, Ascii("fclones:"))
    ensures !ShouldFilterLine(line)
  {
    hide Contains, Index;
    assert Cut(line, PREFIX).NotFound? by { NotContained(line); }
  }

  lemma {:induction false} NotContained(line: seq<byte>)
    requires !Contains(line, Ascii("fclones:"))
    ensures Cut(line, PREFIX).NotFound?
  {
  }

  predicate AsciiBlank(b: byte) {
    9 <= b <= 13 || b == 32
  }

  /** White space around the level is no part of it. */
  lemma {:induction false} LevelTrimmed(left: seq<byte>, w: seq<byte>, right: seq<byte>)
    requires w != [] && 0x20 < w[0] < RUNE_SELF && 0x20 < w[|w| - 1] < RUNE_SELF
    requires forall b :: b in left + right ==> 9 <= b <= 13 || b == 32
    ensures TrimSpace(left + w + right) == w
  {
    hide TrimSpaceRight, TrimSpaceLeft;
    assert forall i :: 0 <= i < |left| ==> left[i] in left + right;
    assert forall i :: 0 <= i < |right| ==> right[i] in left + right;
    TrimLeftBlanks(left, w + right);
    assert left + w + right == left + (w + right);
    TrimRightBlanks(w, right);
  }

  lemma {:induction false} TrimLeftBlanks(left: seq<byte>, rest: seq<byte>)
    requires forall i :: 0 <= i < |left| ==> AsciiBlank(left[i])
    requires rest != [] && 0x20 < rest[0] < RUNE_SELF
    ensures TrimSpaceLeft(left + rest) == rest
  {
    var s := left + rest;
    if left == [] {
      assert s == rest && s[..1] == [s[0]];
    } else {
      assert s[1..] == left[1..] + rest && s[..1] == [s[0]];
      TrimLeftBlanks(left[1..], rest);
    }
  }

  lemma {:induction false} TrimRightBlanks(w: seq<byte>, right: seq<byte>)
    requires forall i :: 0 <= i < |right| ==> AsciiBlank(right[i])
    requires w != [] && 0x20 < w[|w| - 1] < RUNE_SELF
    ensures TrimSpaceRight(w + right) == w
    decreases |right|
  {
    var s := w + right;
    if right == [] {
      hide IsSpaceChar;
      assert s == w;
      ClosedByWord(s[|s| - 1..]);
      if |s| >= 2 {
        ClosedByWord(s[|s| - 2..]);
      }
      if |s| >= 3 {
        ClosedByWord(s[|s| - 3..]);
      }
    } else {
      assert s[|s| - 1..] == [right[|right| - 1]];
      assert s[..|s| - 1] == w + right[..|right| - 1];
      TrimRightBlanks(w, right[..|right| - 1]);
    }
  }

  /** An error-level diagnostic is never dropped, whatever its timestamp and message. */
  lemma {:induction false} ErrorNeverDropped(ahead: seq<byte>, pad: seq<byte>, msg: seq<byte>)
    requires !Contains(ahead, Ascii("fclones:")) && AllSpaces(pad)
    ensures !ShouldFilterLine(ahead + Ascii("fclones:") + (pad + (Ascii("error") + Ascii(":") + msg)))
  {
    hide Contains, HasPrefix, TrimLeftSpaces, TrimSpace, ShouldFilterLine, IsProgress, IsFiemapNotice;
    var level := Ascii("error");
    TrimSpaceKeepsWord(level);
    assert |level| != |Ascii("info")| && |level| != |Ascii("warn")|;
    FramedDecision(ahead + Ascii("fclones:") + (pad + (level + Ascii(":") + msg)), ahead, pad, level, msg);
  }

  /** A warning is dropped exactly when its body is fclones' own FIEMAP notice; a file name that
      merely echoes the phrase cannot hide the warning that reports it. */
  lemma {:induction false} WarnDroppedExactly(ahead: seq<byte>, pad: seq<byte>, msg: seq<byte>)
    requires !Contains(ahead, Ascii("fclones:")) && AllSpaces(pad)
    ensures ShouldFilterLine(ahead + Ascii("fclones:") + (pad + (Ascii("warn") + Ascii(":") + msg)))
            <==> Ascii("File system ") <= TrimLeftSpaces(msg)
                 && Contains(TrimLeftSpaces(msg), Ascii("doesn't support FIEMAP ioctl API"))
  {
    hide Contains, TrimLeftSpaces, TrimSpace, ShouldFilterLine, IsProgress;
    var level := Ascii("warn");
    TrimSpaceKeepsWord(level);
    assert level[0] != Ascii("info")[0];
    FramedDecision(ahead + Ascii("fclones:") + (pad + (level + Ascii(":") + msg)), ahead, pad, level, msg);
  }

  /** An info line is dropped exactly when its body holds one of the four progress phrases. */
  lemma {:induction false} InfoDroppedExactly(ahead: seq<byte>, pad: seq<byte>, msg: seq<byte>)
    requires !Contains(ahead, Ascii("fclones:")) && AllSpaces(pad)
    ensures ShouldFilterLine(ahead + Ascii("fclones:") + (pad + (Ascii("info") + Ascii(":") + msg)))
            <==> var body := TrimLeftSpaces(msg);
                 Contains(body, Ascii("Started grouping")) || Contains(body, Ascii("Started deduplicating"))
                 || Contains(body, Ascii("Scanned ")) || Contains(body, Ascii("Found "))
  {
    hide Contains, TrimLeftSpaces, TrimSpace, ShouldFilterLine, IsFiemapNotice;
    var level := Ascii("info");
    TrimSpaceKeepsWord(level);
    assert level[0] != Ascii("warn")[0];
    FramedDecision(ahead + Ascii("fclones:") + (pad + (level + Ascii(":") + msg)), ahead, pad, level, msg);
  }
}
