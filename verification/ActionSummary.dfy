/** The summary line of an fclones action: which line is recognised and what is read from it. */
module ActionSummary {
  import opened ByteSize
  import opened Options
  import opened Search
  import opened Text

  datatype Summary = Summary(rawLine: string, files: int, reclaimedBytes: int, estimated: bool, matched: bool)

  datatype Metrics = Metrics(files: int, reclaimedBytes: int, estimated: bool)

  // ----- strconv.Atoi -----

  /** An optional sign and digits, in the range of an int64. */
  function Atoi(s: string): Option<int> {
    var digits := if s != "" && (s[0] == '-' || s[0] == '+') then s[1..] else s;
    if !IsDigits(digits) then None
    else
      var magnitude: int := DigitsValue(digits);
      var n := if s[0] == '-' then -magnitude else magnitude;
      if -TWO_63 <= n < TWO_63 then Some(n) else None
  }

  lemma {:induction false} AtoiItoa(n: nat)
    requires n < TWO_63
    ensures Atoi(Itoa(n)) == Some(n)
  {
    ItoaValue(n);
  }

  /** A number may carry either sign; without digits, or with any other rune, it is none. */
  lemma {:induction false} AtoiSigned(s: string)
    requires s != "" && s[0] != '+' && s[0] != '-'
    ensures IsDigits(s) && DigitsValue(s) < 0x8000_0000_0000_0000 ==>
              var n: int := DigitsValue(s);
              Atoi(s) == Some(n) && Atoi("+" + s) == Some(n) && Atoi("-" + s) == Some(-n)
    ensures !IsDigits(s) ==> Atoi(s) == None && Atoi("+" + s) == None && Atoi("-" + s) == None
  {
    hide DigitsValue;
    assert ("+" + s)[1..] == s && ("-" + s)[1..] == s;
  }

  // ----- one line -----

  /** The count and the total, by field position; "up to" shifts the total by two fields. */
  function ReclaimedMetrics(num: FloatParser, upper: UpperCase, rawLine: string): Metrics {
    var fields := Fields(rawLine);
    if |fields| < 7 then Metrics(0, 0, false)
    else
      var count := Atoi(fields[1]);
      var files := if count.Some? && count.value >= 0 then count.value else 0;
      if fields[5] == "up" && fields[6] == "to" then
        if |fields| < 9 then Metrics(files, 0, true)
        else Metrics(files, ParseHumanBytes(num, upper, fields[7] + " " + fields[8]), true)
      else Metrics(files, ParseHumanBytes(num, upper, fields[5] + " " + fields[6]), false)
  }

  predicate IsSummaryLine(line: string) {
    Contains(line, "Processed") && Contains(line, "reclaimed")
  }

  function SummaryOf(num: FloatParser, upper: UpperCase, line: string): (s: Summary)
    requires IsSummaryLine(line)
    ensures s.matched
  {
    var rawLine := TrimSpace(line[Index(line, "Processed")..]);
    var m := ReclaimedMetrics(num, upper, rawLine);
    Summary(rawLine, m.files, m.reclaimedBytes, m.estimated, true)
  }

  // ----- the whole output -----

  /** `strings.Split(s, "\n")`. */
  function SplitLines(s: string): (ls: seq<string>)
    ensures |ls| > 0
  {
    if s == "" then [""]
    else
      var ls := SplitLines(s[1..]);
      if s[0] == '\n' then [""] + ls else [[s[0]] + ls[0]] + ls[1..]
  }

  function JoinLines(ls: seq<string>): string
    requires |ls| > 0
  {
    if |ls| == 1 then ls[0] else ls[0] + ("\n" + JoinLines(ls[1..]))
  }

  lemma {:induction false} SplitWord(w: string, s: string)
    requires '\n' !in w
    ensures SplitLines(w) == [w]
    ensures SplitLines(w + ("\n" + s)) == [w] + SplitLines(s)
  {
    if w == "" {
      assert w + ("\n" + s) == "\n" + s && ("\n" + s)[1..] == s;
    } else {
      assert (w + ("\n" + s))[1..] == w[1..] + ("\n" + s);
      SplitWord(w[1..], s);
      assert [w[0]] + w[1..] == w;
      assert ([w[1..]] + SplitLines(s))[1..] == SplitLines(s);
    }
  }

  lemma {:induction false} SplitJoined(ls: seq<string>)
    requires |ls| > 0 && forall i :: 0 <= i < |ls| ==> '\n' !in ls[i]
    ensures SplitLines(JoinLines(ls)) == ls
  {
    if |ls| == 1 {
      SplitWord(ls[0], "");
    } else {
      SplitJoined(ls[1..]);
      SplitWord(ls[0], JoinLines(ls[1..]));
    }
  }

  /** The scan over the lines, `last` being the last non-blank line so far. */
  function Scan(num: FloatParser, upper: UpperCase, lines: seq<string>, last: string): Summary {
    if lines == [] then Summary(last, 0, 0, false, false)
    else if TrimSpace(lines[0]) == "" then Scan(num, upper, lines[1..], last)
    else if IsSummaryLine(lines[0]) then SummaryOf(num, upper, lines[0])
    else Scan(num, upper, lines[1..], TrimSpace(lines[0]))
  }

  method ParseActionSummary(num: FloatParser, upper: UpperCase, stdout: string) returns (summary: Summary)
    ensures summary == Scan(num, upper, SplitLines(stdout), "")
  {
    hide IsSummaryLine, SummaryOf, TrimSpace;
    var lines := SplitLines(stdout);
    var lastNonEmpty := "";
    for i := 0 to |lines|
      invariant Scan(num, upper, lines, "") == Scan(num, upper, lines[i..], lastNonEmpty)
    {
      assert lines[i..][1..] == lines[i + 1..];
      var trimmed := TrimSpace(lines[i]);
      if trimmed == "" {
        continue;
      }
      if IsSummaryLine(lines[i]) {
        return SummaryOf(num, upper, lines[i]);
      }
      lastNonEmpty := trimmed;
    }
    return Summary(lastNonEmpty, 0, 0, false, false);
  }

  // ----- what is recognised -----

  /** The last line that is not blank, trimmed; "" when every line is blank. */
  function LastNonblank(lines: seq<string>, otherwise: string): string {
    if lines == [] then otherwise
    else if TrimSpace(lines[|lines| - 1]) != "" then TrimSpace(lines[|lines| - 1])
    else LastNonblank(lines[..|lines| - 1], otherwise)
  }

  lemma {:induction false} LastNonblankFirst(lines: seq<string>, otherwise: string)
    requires lines != []
    ensures LastNonblank(lines, otherwise)
            == LastNonblank(lines[1..], if TrimSpace(lines[0]) == "" then otherwise else TrimSpace(lines[0]))
  {
    hide TrimSpace;
    if |lines| > 1 {
      var n := |lines| - 1;
      assert lines[1..][..n - 1] == lines[..n][1..] && lines[1..][n - 1] == lines[n];
      LastNonblankFirst(lines[..n], otherwise);
    }
  }

  lemma {:induction false} SummaryLineNotBlank(line: string)
    requires IsSummaryLine(line)
    ensures TrimSpace(line) != ""
  {
    var i := Index(line, "Processed");
    assert line[i] == line[i..i + 9][0] == 'P';
    TrimSpaceTrims(line);
  }

  /** The first line holding both words decides; other lines never change what is read from it.
      Without one, the metrics are all zero and the last non-blank line is kept for the warning. */
  lemma {:induction false} ScanDecides(num: FloatParser, upper: UpperCase, lines: seq<string>, last: string)
    ensures var s := Scan(num, upper, lines, last);
            && (s.matched <==> exists i :: 0 <= i < |lines| && IsSummaryLine(lines[i]))
            && (!s.matched ==> s == Summary(LastNonblank(lines, last), 0, 0, false, false))
    ensures forall k :: 0 <= k < |lines| && IsSummaryLine(lines[k]) && (forall i :: 0 <= i < k ==> !IsSummaryLine(lines[i]))
              ==> Scan(num, upper, lines, last) == SummaryOf(num, upper, lines[k])
  {
    hide IsSummaryLine, SummaryOf, TrimSpace;
    if lines != [] {
      var rest := lines[1..];
      LastNonblankFirst(lines, last);
      if IsSummaryLine(lines[0]) {
        SummaryLineNotBlank(lines[0]);
        assert Scan(num, upper, lines, last) == SummaryOf(num, upper, lines[0]);
      } else {
        ScanDecides(num, upper, rest, if TrimSpace(lines[0]) == "" then last else TrimSpace(lines[0]));
        assert forall i :: 0 < i < |lines| ==> lines[i] == rest[i - 1];
        forall k | 0 <= k < |lines| && IsSummaryLine(lines[k]) && (forall i :: 0 <= i < k ==> !IsSummaryLine(lines[i]))
          ensures Scan(num, upper, lines, last) == SummaryOf(num, upper, lines[k])
        {
          assert rest[k - 1] == lines[k];
          assert forall i :: 0 <= i < k - 1 ==> rest[i] == lines[i + 1];
        }
      }
    }
  }

  // ----- printing then parsing -----

  predicate AllWords(ws: seq<string>) {
    forall i :: 0 <= i < |ws| ==> IsWord(ws[i])
  }

  /** fclones' summary text for a count and a total: the words joined by single spaces. fclones closes
      it by the one word "space"; what stands behind the total is never read. */
  function SummaryText(files: nat, upTo: bool, number: string, unit: string, tail: seq<string>): string {
    JoinSpace(SummaryWords(files, upTo, number, unit, tail))
  }

  function SummaryWords(files: nat, upTo: bool, number: string, unit: string, tail: seq<string>): seq<string> {
    ["Processed", Itoa(files), "files", "and", "reclaimed"] + (if upTo then ["up", "to"] else []) + [number, unit] + tail
  }

  lemma {:induction false} JoinHolds(ws: seq<string>, k: nat)
    requires k < |ws|
    ensures Contains(JoinSpace(ws), ws[k])
    ensures ws[0] <= JoinSpace(ws)
    ensures var j, w := JoinSpace(ws), ws[|ws| - 1]; |w| <= |j| && j[|j| - |w|..] == w
  {
    var j := JoinSpace(ws);
    if |ws| == 1 {
      assert j[0..|j|] == j;
      assert OccursAt(j, ws[k], 0);
    } else {
      var r := JoinSpace(ws[1..]);
      JoinHolds(ws[1..], if k == 0 then 0 else k - 1);
      assert j == ws[0] + [' '] + r;
      if k == 0 {
        assert j[0..|ws[0]|] == ws[0];
        assert OccursAt(j, ws[0], 0);
      } else {
        ContainsInside(ws[0] + [' '], r, "", ws[k]);
        assert ws[0] + [' '] + r + "" == j;
      }
    }
  }

  lemma {:induction false} SummaryTextFields(files: nat, upTo: bool, number: string, unit: string, tail: seq<string>)
    requires IsWord(number) && IsWord(unit) && AllWords(tail)
    ensures Fields(SummaryText(files, upTo, number, unit, tail)) == SummaryWords(files, upTo, number, unit, tail)
  {
    hide Fields, Itoa;
    var ws := SummaryWords(files, upTo, number, unit, tail);
    DigitsAreWord(Itoa(files));
    forall i | 0 <= i < |ws| ensures IsWord(ws[i]) {}
    FieldsOfJoined(ws);
  }

  /** A summary line, whatever stands ahead of it on the line, is recognised and read exactly: the
      count, the total as the size parser reads it, and whether it was an upper bound. */
  lemma {:induction false} SummaryLineRead(num: FloatParser, upper: UpperCase, prefix: string, files: nat, upTo: bool,
                                           number: string, unit: string, tail: seq<string>)
    requires files < TWO_63 && IsWord(number) && IsWord(unit) && AllWords(tail)
    requires !Contains(prefix, "Processed")
    requires !upTo ==> !(number == "up" && unit == "to")
    ensures var text := SummaryText(files, upTo, number, unit, tail);
            IsSummaryLine(prefix + text)
            && SummaryOf(num, upper, prefix + text)
               == Summary(text, files, ParseHumanBytes(num, upper, number + " " + unit), upTo, true)
  {
    var text := SummaryText(files, upTo, number, unit, tail);
    SummaryLineFound(prefix, files, upTo, number, unit, tail);
    SummaryTextFields(files, upTo, number, unit, tail);
    AtoiItoa(files);
    hide Fields, Atoi, Index, Contains, ParseHumanBytes, TrimSpace;
    MetricsRead(num, upper, text, files, upTo, number, unit, tail);
  }

  lemma {:induction false} MetricsRead(num: FloatParser, upper: UpperCase, text: string, files: nat, upTo: bool,
                                       number: string, unit: string, tail: seq<string>)
    requires Fields(text) == SummaryWords(files, upTo, number, unit, tail) && Atoi(Itoa(files)) == Some(files)
    requires !upTo ==> !(number == "up" && unit == "to")
    ensures ReclaimedMetrics(num, upper, text) == Metrics(files, ParseHumanBytes(num, upper, number + " " + unit), upTo)
  {
    hide Fields, Atoi, ParseHumanBytes, Itoa, SummaryWords;
    SummaryWordsAt(files, upTo, number, unit, tail);
  }

  lemma {:induction false} SummaryWordsAt(files: nat, upTo: bool, number: string, unit: string, tail: seq<string>)
    ensures var ws, at := SummaryWords(files, upTo, number, unit, tail), if upTo then 7 else 5;
            |ws| == at + 2 + |tail| && ws[1] == Itoa(files) && ws[at] == number && ws[at + 1] == unit
            && (upTo ==> ws[5] == "up" && ws[6] == "to")
  {
    hide Itoa;
  }

  lemma {:induction false} SummaryLineFound(prefix: string, files: nat, upTo: bool, number: string, unit: string,
                                            tail: seq<string>)
    requires IsWord(unit) && AllWords(tail)
    requires !Contains(prefix, "Processed")
    ensures var text := SummaryText(files, upTo, number, unit, tail);
            && Contains(prefix + text, "Processed") && Contains(prefix + text, "reclaimed")
            && Index(prefix + text, "Processed") == |prefix|
            && (prefix + text)[|prefix|..] == text && TrimSpace(text) == text
  {
    hide Contains, Index, SummaryText, TrimSpace;
    var text := SummaryText(files, upTo, number, unit, tail);
    SummaryTextShape(files, upTo, number, unit, tail);
    ContainsInside(prefix, text, "", "reclaimed");
    assert prefix + text + "" == prefix + text;
    SplitFront(prefix, text);
    TrimKeepsWord(text);
  }

  lemma {:induction false} SummaryTextShape(files: nat, upTo: bool, number: string, unit: string, tail: seq<string>)
    requires IsWord(unit) && AllWords(tail)
    ensures var text := SummaryText(files, upTo, number, unit, tail);
            "Processed" <= text && Contains(text, "reclaimed") && !IsSpace(text[|text| - 1])
  {
    hide JoinSpace, Contains, Itoa, IsSpace;
    var ws := SummaryWords(files, upTo, number, unit, tail);
    JoinHolds(ws, 4);
    var text, last := JoinSpace(ws), ws[|ws| - 1];
    assert IsWord(last);
    assert text[|text| - 1] == text[|text| - |last|..][|last| - 1];
  }

  lemma {:induction false} SplitFront(prefix: string, text: string)
    requires !Contains(prefix, "Processed") && "Processed" <= text
    ensures Contains(prefix + text, "Processed") && Index(prefix + text, "Processed") == |prefix|
    ensures (prefix + text)[|prefix|..] == text && text[0] == 'P'
  {
    assert text == "Processed" + text[9..];
    assert prefix + text == prefix + "Processed" + text[9..];
    FirstOccurrence(prefix, "Processed", text[9..]);
  }

  /** The same inside a whole output: lines ahead that do not hold both words are passed over, and
      nothing after the summary matters. */
  lemma {:induction false} OutputRead(num: FloatParser, upper: UpperCase, noise: seq<string>, prefix: string, files: nat,
                                      upTo: bool, number: string, unit: string, tail: seq<string>,
                                      after: seq<string>)
    requires files < TWO_63 && IsWord(number) && IsWord(unit) && AllWords(tail)
    requires !Contains(prefix, "Processed")
    requires !upTo ==> !(number == "up" && unit == "to")
    requires forall i :: 0 <= i < |noise| ==> !IsSummaryLine(noise[i])
    requires var lines := noise + [prefix + SummaryText(files, upTo, number, unit, tail)] + after;
             forall i :: 0 <= i < |lines| ==> '\n' !in lines[i]
    ensures var lines := noise + [prefix + SummaryText(files, upTo, number, unit, tail)] + after;
            Scan(num, upper, SplitLines(JoinLines(lines)), "")
            == Summary(SummaryText(files, upTo, number, unit, tail), files,
                       ParseHumanBytes(num, upper, number + " " + unit), upTo, true)
  {
    hide IsSummaryLine, SummaryOf, SummaryText, Scan, ParseHumanBytes, Contains;
    var line := prefix + SummaryText(files, upTo, number, unit, tail);
    var lines := noise + [line] + after;
    SplitJoined(lines);
    SummaryLineRead(num, upper, prefix, files, upTo, number, unit, tail);
    ScanDecides(num, upper, lines, "");
    assert lines[|noise|] == line && forall i :: 0 <= i < |noise| ==> lines[i] == noise[i];
  }

  // ----- which stream the summary is taken from -----

  method ResolveActionSummary(num: FloatParser, upper: UpperCase, stderrOut: string, stdoutOut: string)
    returns (summary: Summary, drift: bool)
    ensures summary.matched <==> Recognised(stderrOut) || Recognised(stdoutOut)
    ensures Recognised(stderrOut) ==> summary == Scan(num, upper, SplitLines(stderrOut), "")
    ensures !Recognised(stderrOut) && Recognised(stdoutOut) ==> summary == Scan(num, upper, SplitLines(stdoutOut), "")
    ensures !summary.matched ==>
              summary == Summary(if HasText(stderrOut) then LastText(stderrOut) else LastText(stdoutOut), 0, 0, false, false)
    ensures summary.files >= 0 && 0 <= summary.reclaimedBytes < 0x8000_0000_0000_0000
    ensures drift <==> !summary.matched && (HasText(stderrOut) || HasText(stdoutOut))
  {
    hide IsSummaryLine, HoldsBoth, Scan, TrimSpace;
    forall line ensures IsSummaryLine(line) <==> HoldsBoth(line) {
      SummaryLineHoldsBoth(line);
    }
    NothingNegative(num, upper, SplitLines(stderrOut), "");
    NothingNegative(num, upper, SplitLines(stdoutOut), "");
    summary := ParseActionSummary(num, upper, stderrOut);
    ScanDecides(num, upper, SplitLines(stderrOut), "");
    LastNonblankBlank(SplitLines(stderrOut));
    if !summary.matched {
      var alt := ParseActionSummary(num, upper, stdoutOut);
      ScanDecides(num, upper, SplitLines(stdoutOut), "");
      LastNonblankBlank(SplitLines(stdoutOut));
      if alt.matched || summary.rawLine == "" {
        summary := alt;
      }
    }
    drift := !summary.matched && summary.rawLine != "";
  }

  /** Some line of the stream holds both words. */
  ghost predicate Recognised(stream: string) {
    exists i :: 0 <= i < |SplitLines(stream)| && HoldsBoth(SplitLines(stream)[i])
  }

  ghost predicate HoldsBoth(line: string) {
    (exists i: nat :: OccursAt(line, "Processed", i)) && exists i: nat :: OccursAt(line, "reclaimed", i)
  }

  lemma {:induction false} SummaryLineHoldsBoth(line: string)
    ensures IsSummaryLine(line) <==> HoldsBoth(line)
  {
    hide OccursAt;
  }

  /** The last line of the stream that is not blank, without white space at its ends. */
  ghost function LastText(stream: string): string {
    LastNonblank(SplitLines(stream), "")
  }

  lemma {:induction false} LastTextExactly(stream: string)
    ensures !HasText(stream) ==> LastText(stream) == ""
    ensures HasText(stream) ==>
              exists i :: 0 <= i < |SplitLines(stream)| && LastText(stream) == TrimSpace(SplitLines(stream)[i]) != ""
                          && forall j :: i < j < |SplitLines(stream)| ==> TrimSpace(SplitLines(stream)[j]) == ""
  {
    hide TrimSpace;
    LastNonblankAt(SplitLines(stream));
    LastNonblankBlank(SplitLines(stream));
  }

  lemma {:induction false} LastNonblankAt(lines: seq<string>)
    ensures LastNonblank(lines, "") != "" ==>
              exists i :: 0 <= i < |lines| && LastNonblank(lines, "") == TrimSpace(lines[i])
                          && forall j :: i < j < |lines| ==> TrimSpace(lines[j]) == ""
  {
    hide TrimSpace;
    if lines != [] {
      var n := |lines| - 1;
      var r := lines[..n];
      LastNonblankAt(r);
      if TrimSpace(lines[n]) != "" {
        assert LastNonblank(lines, "") == TrimSpace(lines[n]);
      } else if LastNonblank(r, "") != "" {
        var i :| 0 <= i < |r| && LastNonblank(r, "") == TrimSpace(r[i]) && forall j :: i < j < |r| ==> TrimSpace(r[j]) == "";
        assert lines[i] == r[i] && forall j :: i < j < n ==> lines[j] == r[j];
      }
    }
  }

  /** Whatever the text, no negative count or size is ever read from it. */
  lemma {:induction false} NothingNegative(num: FloatParser, upper: UpperCase, lines: seq<string>, last: string)
    ensures var s := Scan(num, upper, lines, last);
            s.files >= 0 && 0 <= s.reclaimedBytes < 0x8000_0000_0000_0000
  {
    hide IsSummaryLine, TrimSpace, Fields, Atoi, ParseHumanBytes;
    if lines != [] && TrimSpace(lines[0]) == "" {
      NothingNegative(num, upper, lines[1..], last);
    } else if lines != [] && !IsSummaryLine(lines[0]) {
      NothingNegative(num, upper, lines[1..], TrimSpace(lines[0]));
    }
  }

  /** Some line of the stream is not blank. */
  ghost predicate HasText(stream: string) {
    exists i :: 0 <= i < |SplitLines(stream)| && TrimSpace(SplitLines(stream)[i]) != ""
  }

  lemma {:induction false} LastNonblankBlank(lines: seq<string>)
    ensures LastNonblank(lines, "") != "" <==> exists i :: 0 <= i < |lines| && TrimSpace(lines[i]) != ""
  {
    hide TrimSpace;
    if lines != [] {
      var r := lines[..|lines| - 1];
      LastNonblankBlank(r);
      if TrimSpace(lines[|lines| - 1]) == "" {
        assert forall i :: 0 <= i < |r| ==> lines[i] == r[i];
      }
    }
  }
}
