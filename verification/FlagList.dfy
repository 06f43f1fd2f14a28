/** The committed list of fclones options: its text form, and the comparison with the options a binary
    accepts. */
module FlagList {
  import opened Text

  // ----- string order -----

  /** Go's string order: by the first difference, a prefix first. */
  predicate Less(a: string, b: string)
    decreases |a|
  {
    b != "" && (a == "" || a[0] < b[0] || (a[0] == b[0] && Less(a[1..], b[1..])))
  }

  lemma {:induction false} LessTrichotomy(a: string, b: string)
    ensures a != b ==> Less(a, b) || Less(b, a)
    ensures !(Less(a, b) && Less(b, a)) && !Less(a, a)
    decreases |a|
  {
    if a != "" && b != "" {
      LessTrichotomy(a[1..], b[1..]);
      LessTrichotomy(a[1..], a[1..]);
      if a[1..] == b[1..] && a[0] == b[0] {
        assert a == [a[0]] + a[1..] && b == [b[0]] + b[1..];
      }
    } else if a != "" {
      LessTrichotomy(a[1..], a[1..]);
    }
  }

  lemma {:induction false} LessTransitive(a: string, b: string, c: string)
    requires Less(a, b) && Less(b, c)
    ensures Less(a, c)
    decreases |a|
  {
    if a != "" && a[0] == b[0] && b[0] == c[0] {
      LessTransitive(a[1..], b[1..], c[1..]);
    }
  }

  lemma {:induction false} NotLessTransitive(a: string, b: string, c: string)
    requires !Less(b, a) && !Less(c, b)
    ensures !Less(c, a)
  {
    LessTrichotomy(a, b);
    LessTrichotomy(b, c);
    if a != b && b != c {
      LessTransitive(a, b, c);
    }
    LessTrichotomy(a, c);
  }

  /** A text goes before its extensions, and where two texts part the smaller rune decides. */
  lemma {:induction false} LessAtDifference(shared: string, x: char, a: string, y: char, b: string)
    ensures Less(shared, shared + [x] + a)
    ensures x < y ==> Less(shared + [x] + a, shared + [y] + b)
  {
    if shared != "" {
      LessAtDifference(shared[1..], x, a, y, b);
      assert (shared + [x] + a)[1..] == shared[1..] + [x] + a && (shared + [y] + b)[1..] == shared[1..] + [y] + b;
    }
  }

  ghost predicate Sorted(s: seq<string>) {
    forall i, j :: 0 <= i < j < |s| ==> !Less(s[j], s[i])
  }

  /** Sorted and without repetition. */
  ghost predicate Strict(s: seq<string>) {
    forall i, j :: 0 <= i < j < |s| ==> Less(s[i], s[j])
  }

  // ----- slices.BinarySearch -----

  method BinarySearch(x: seq<string>, target: string) returns (pos: nat, found: bool)
    requires Sorted(x)
    ensures pos <= |x|
    ensures found <==> target in x
    ensures found ==> pos < |x| && x[pos] == target
    ensures forall k :: 0 <= k < pos ==> Less(x[k], target)
    ensures forall k :: pos <= k < |x| ==> !Less(x[k], target)
  {
    var i, j := 0, |x|;
    while i < j
      invariant 0 <= i <= j <= |x|
      invariant forall k :: 0 <= k < i ==> Less(x[k], target)
      invariant forall k :: j <= k < |x| ==> !Less(x[k], target)
    {
      var h := (i + j) / 2;
      if Less(x[h], target) {
        forall k | 0 <= k < h ensures Less(x[k], target) {
          LessTrichotomy(x[k], x[h]);
          if x[k] != x[h] {
            LessTransitive(x[k], x[h], target);
          }
        }
        i := h + 1;
      } else {
        forall k | h <= k < |x| ensures !Less(x[k], target) {
          LessTrichotomy(x[h], x[h]);
          NotLessTransitive(target, x[h], x[k]);
        }
        j := h;
      }
    }
    if target in x {
      ghost var k :| 0 <= k < |x| && x[k] == target;
      LessTrichotomy(target, target);
      assert i <= k;
      LessTrichotomy(x[i], x[k]);
      assert x[i] == target;
    }
    return i, i < |x| && x[i] == target;
  }

  // ----- diff -----

  /** The entries of `got`, in order, that `want` lacks. */
  function Missing(got: seq<string>, want: seq<string>): seq<string> {
    if got == [] then []
    else Missing(got[..|got| - 1], want) + if got[|got| - 1] in want then [] else [got[|got| - 1]]
  }

  method Diff(want: seq<string>, got: seq<string>) returns (added: seq<string>, removed: seq<string>)
    requires Sorted(want) && Sorted(got)
    ensures added == Missing(got, want) && removed == Missing(want, got)
  {
    added, removed := [], [];
    assert got[..0] == [] && want[..0] == [];
    for i := 0 to |got|
      invariant added == Missing(got[..i], want)
    {
      assert got[..i + 1][..i] == got[..i];
      var _, found := BinarySearch(want, got[i]);
      if !found {
        added := added + [got[i]];
      }
    }
    assert got[..|got|] == got;
    for i := 0 to |want|
      invariant removed == Missing(want[..i], got)
    {
      assert want[..i + 1][..i] == want[..i];
      var _, found := BinarySearch(got, want[i]);
      if !found {
        removed := removed + [want[i]];
      }
    }
    assert want[..|want|] == want;
  }

  lemma {:induction false} MissingHolds(got: seq<string>, want: seq<string>)
    ensures forall e :: e in Missing(got, want) <==> e in got && e !in want
    ensures Sorted(got) ==> Sorted(Missing(got, want))
    ensures forall i :: 0 <= i < |Missing(got, want)| ==> Missing(got, want)[i] in got
  {
    if got != [] {
      MissingHolds(got[..|got| - 1], want);
      var last := got[|got| - 1];
      assert got == got[..|got| - 1] + [last];
    }
  }

  /** The comparison finds exactly the two set differences, each in order, and finds nothing exactly
      when both lists hold the same entries. */
  lemma {:induction false} DiffExactly(want: seq<string>, got: seq<string>)
    requires Sorted(want) && Sorted(got)
    ensures forall e :: e in Missing(got, want) <==> e in got && e !in want
    ensures Sorted(Missing(got, want)) && Sorted(Missing(want, got))
    ensures Missing(got, want) == [] && Missing(want, got) == [] <==> (forall e :: e in got <==> e in want)
  {
    MissingHolds(got, want);
    MissingHolds(want, got);
    if Missing(got, want) != [] {
      assert Missing(got, want)[0] in Missing(got, want);
    }
    if Missing(want, got) != [] {
      assert Missing(want, got)[0] in Missing(want, got);
    }
  }

  // ----- sort and compact -----

  function Insert(e: string, s: seq<string>): seq<string> {
    if s == [] || !Less(s[0], e) then [e] + s else [s[0]] + Insert(e, s[1..])
  }

  /** `slices.Sort`, which its result determines. */
  function Sort(s: seq<string>): seq<string> {
    if s == [] then [] else Insert(s[0], Sort(s[1..]))
  }

  /** `slices.Compact`: a run of equal entries becomes one. */
  function Compact(s: seq<string>): seq<string> {
    if |s| <= 1 then s
    else if s[0] == s[1] then Compact(s[1..])
    else [s[0]] + Compact(s[1..])
  }

  lemma {:induction false} InsertSorted(e: string, s: seq<string>)
    requires Sorted(s)
    ensures Sorted(Insert(e, s))
    ensures forall x :: x in Insert(e, s) <==> x == e || x in s
  {
    if s != [] && Less(s[0], e) {
      var r := Insert(e, s[1..]);
      InsertSorted(e, s[1..]);
      assert s == [s[0]] + s[1..];
      forall j | 0 <= j < |r| ensures !Less(r[j], s[0]) {
        if r[j] == e {
          LessTrichotomy(s[0], e);
        } else {
          assert r[j] in s[1..];
        }
      }
    } else if s != [] {
      var t := [e] + s;
      forall j | 0 <= j < |s| ensures !Less(s[j], e) {
        LessTrichotomy(s[0], s[0]);
        NotLessTransitive(e, s[0], s[j]);
      }
    }
  }

  lemma {:induction false} SortSorts(s: seq<string>)
    ensures Sorted(Sort(s)) && forall x :: x in Sort(s) <==> x in s
  {
    if s != [] {
      SortSorts(s[1..]);
      InsertSorted(s[0], Sort(s[1..]));
      assert s == [s[0]] + s[1..];
    }
  }

  lemma {:induction false} CompactStrict(s: seq<string>)
    requires Sorted(s)
    ensures Strict(Compact(s)) && (forall x :: x in Compact(s) <==> x in s)
    ensures s != [] ==> Compact(s) != [] && Compact(s)[0] == s[0]
  {
    if |s| > 1 {
      var r := Compact(s[1..]);
      CompactStrict(s[1..]);
      assert s == [s[0]] + s[1..];
      if s[0] != s[1] {
        LessTrichotomy(s[0], s[1]);
        forall j | 0 <= j < |r| ensures Less(s[0], r[j]) {
          if j > 0 {
            LessTransitive(s[0], r[0], r[j]);
          }
        }
      }
    }
  }

  lemma {:induction false} StrictKept(s: seq<string>)
    requires Strict(s)
    ensures Sort(s) == s && Compact(s) == s
  {
    if s != [] {
      StrictKept(s[1..]);
      if |s| > 1 {
        LessTrichotomy(s[0], s[1]);
      }
      assert s == [s[0]] + s[1..];
    }
  }

  // ----- the text form -----

  /** `strings.Lines`: the lines of a text with their newlines; a text that ends in one has no line
      after it. */
  function Lines(s: string): seq<string> {
    if s == "" then []
    else if s[0] == '\n' then ["\n"] + Lines(s[1..])
    else
      var ls := Lines(s[1..]);
      if s[1..] == "" then [s] else [[s[0]] + ls[0]] + ls[1..]
  }

  /** `strings.TrimRight(s, "\n")`. */
  function TrimNewlines(s: string): string {
    if s != "" && s[|s| - 1] == '\n' then TrimNewlines(s[..|s| - 1]) else s
  }

  predicate IsComment(line: string) {
    line != "" && line[0] == '#'
  }

  function JoinFields(fields: seq<string>): string {
    if fields == [] then "" else JoinSpace(fields)
  }

  /** The entry a line holds, if any: its fields joined by single spaces. */
  function EntryOf(line: string): seq<string> {
    var trimmed := TrimSpace(line);
    if trimmed == "" || IsComment(trimmed) then [] else [JoinFields(Fields(trimmed))]
  }

  function Entries(lines: seq<string>): seq<string> {
    if lines == [] then [] else Entries(lines[..|lines| - 1]) + EntryOf(lines[|lines| - 1])
  }

  method ParseList(text: string) returns (entries: seq<string>)
    ensures entries == Compact(Sort(Entries(Lines(text))))
  {
    hide TrimSpace, JoinFields, Fields;
    var lines := Lines(text);
    entries := [];
    assert lines[..0] == [];
    for i := 0 to |lines|
      invariant entries == Entries(lines[..i])
    {
      assert lines[..i + 1][..i] == lines[..i];
      var line := TrimSpace(lines[i]);
      if line == "" || IsComment(line) {
        continue;
      }
      entries := entries + [JoinFields(Fields(line))];
    }
    assert lines[..|lines|] == lines;
    return Compact(Sort(entries));
  }

  function CommentText(lines: seq<string>): string {
    if lines == [] then "" else CommentText(lines[..|lines| - 1]) + "# " + TrimNewlines(lines[|lines| - 1]) + "\n"
  }

  function EntriesText(entries: seq<string>): string {
    if entries == [] then "" else EntriesText(entries[..|entries| - 1]) + entries[|entries| - 1] + "\n"
  }

  method FormatList(header: string, entries: seq<string>) returns (text: string)
    ensures text == CommentText(Lines(header)) + EntriesText(entries)
  {
    text := "";
    var lines := Lines(header);
    assert lines[..0] == [] && entries[..0] == [];
    for i := 0 to |lines|
      invariant text == CommentText(lines[..i])
    {
      assert lines[..i + 1][..i] == lines[..i];
      text := text + "# " + TrimNewlines(lines[i]) + "\n";
    }
    assert lines[..|lines|] == lines;
    ghost var comments := text;
    for i := 0 to |entries|
      invariant text == comments + EntriesText(entries[..i])
    {
      assert entries[..i + 1][..i] == entries[..i];
      assert comments + EntriesText(entries[..i + 1]) == comments + EntriesText(entries[..i]) + (entries[i] + "\n");
      text := text + (entries[i] + "\n");
    }
    assert entries[..|entries|] == entries;
  }

  /** An entry as the list writes it: fields joined by single spaces, not a comment. */
  ghost predicate Canonical(e: string) {
    e != "" && e == JoinFields(Fields(e)) && e[0] != '#'
  }

  predicate NoNewline(s: string) {
    forall i :: 0 <= i < |s| ==> s[i] != '\n'
  }

  predicate ClosedByNewline(s: string) {
    s == "" || s[|s| - 1] == '\n'
  }

  lemma {:induction false} LinesStep(s: string)
    requires s != ""
    ensures Lines(s) != []
    ensures s[0] == '\n' ==> Lines(s) == ["\n"] + Lines(s[1..])
    ensures s[0] != '\n' && s[1..] != "" ==>
              Lines(s[1..]) != [] && Lines(s) == [[s[0]] + Lines(s[1..])[0]] + Lines(s[1..])[1..]
  {
  }

  lemma {:induction false} LinesConcat(a: string, b: string)
    requires ClosedByNewline(a)
    ensures Lines(a + b) == Lines(a) + Lines(b)
    decreases |a|
  {
    if a == "" {
      assert a + b == b;
    } else {
      hide Lines;
      var t := a[1..];
      assert (a + b)[1..] == t + b && (a + b)[0] == a[0];
      assert t != "" ==> t[|t| - 1] == a[|a| - 1];
      LinesConcat(t, b);
      LinesStep(a);
      LinesStep(a + b);
      if a[0] != '\n' {
        HeadJoined(a[0], Lines(t), Lines(b));
      }
    }
  }

  lemma {:induction false} HeadJoined(c: char, ls: seq<string>, ms: seq<string>)
    requires ls != []
    ensures [[c] + (ls + ms)[0]] + (ls + ms)[1..] == [[c] + ls[0]] + ls[1..] + ms
  {
  }

  lemma {:induction false} LinesOne(w: string)
    requires NoNewline(w)
    ensures Lines(w + "\n") == [w + "\n"]
    ensures Lines(w) == if w == "" then [] else [w]
  {
    if w == "" {
      assert w + "\n" == "\n" && "\n"[1..] == "";
    } else {
      assert (w + "\n")[1..] == w[1..] + "\n";
      LinesOne(w[1..]);
      assert [w[0]] + (w[1..] + "\n") == w + "\n" && [w[0]] + w[1..] == w && [w[1..]][1..] == [];
    }
  }

  lemma {:induction false} LinesTrimmed(s: string)
    ensures forall i :: 0 <= i < |Lines(s)| ==> Lines(s)[i] != "" && NoNewline(Lines(s)[i][..|Lines(s)[i]| - 1])
  {
    if s != "" {
      LinesTrimmed(s[1..]);
      if s[0] != '\n' && s[1..] != "" {
        var l := Lines(s[1..])[0];
        assert ([s[0]] + l)[..|l|] == [s[0]] + l[..|l| - 1];
      }
    }
  }

  lemma {:induction false} TrimmedLine(l: string)
    requires l != "" && NoNewline(l[..|l| - 1])
    ensures NoNewline(TrimNewlines(l))
  {
    var r := l[..|l| - 1];
    assert r != "" ==> r[|r| - 1] != '\n';
    assert TrimNewlines(r) == r;
    assert l == r + [l[|l| - 1]];
  }

  lemma {:induction false} EntriesConcat(a: seq<string>, b: seq<string>)
    ensures Entries(a + b) == Entries(a) + Entries(b)
  {
    hide EntryOf;
    if b == [] {
      assert a + b == a;
    } else {
      assert (a + b)[..|a + b| - 1] == a + b[..|b| - 1];
      EntriesConcat(a, b[..|b| - 1]);
    }
  }

  /** One more terminated line at the end of a text adds what that line holds. */
  lemma {:induction false} TextNext(text: string, w: string)
    requires ClosedByNewline(text) && NoNewline(w)
    ensures ClosedByNewline(text + (w + "\n"))
    ensures Entries(Lines(text + (w + "\n"))) == Entries(Lines(text)) + EntryOf(w + "\n")
  {
    hide EntryOf, Lines;
    LinesConcat(text, w + "\n");
    LinesOne(w);
    EntriesConcat(Lines(text), [w + "\n"]);
    assert [w + "\n"][..0] == [];
    assert Entries([w + "\n"]) == [] + EntryOf(w + "\n");
  }

  lemma {:induction false} CommentHoldsNothing(w: string)
    ensures EntryOf("# " + w + "\n") == []
  {
    var l := "# " + w + "\n";
    assert l == "#" + l[1..] && !IsSpace('#');
    assert TrimLeft(l) == l;
    TrimRightKeepsFront("#", l[1..]);
    assert TrimSpace(l)[0] == '#';
  }

  lemma {:induction false} EntryHoldsItself(e: string)
    requires Canonical(e)
    ensures EntryOf(e + "\n") == [e] && NoNewline(e)
  {
    CanonicalEnds(e);
    hide Fields, JoinFields;
    var l := e + "\n";
    assert l[0] == e[0] && l[..|l| - 1] == e && IsSpace('\n');
    assert TrimLeft(l) == l && TrimRight(l) == TrimRight(e) == e;
  }

  /** Joined words hold no white space but single spaces, and none at either end. */
  lemma {:induction false} JoinedWords(ws: seq<string>)
    requires |ws| > 0 && forall i :: 0 <= i < |ws| ==> IsWord(ws[i])
    ensures var j := JoinSpace(ws);
            && j != "" && ws[0] != "" && j[0] == ws[0][0] && !IsSpace(j[0]) && !IsSpace(j[|j| - 1]) && NoNewline(j)
  {
    assert IsWord(ws[0]);
    if |ws| > 1 {
      forall i | 0 <= i < |ws[1..]| ensures IsWord(ws[1..][i]) {
        assert ws[1..][i] == ws[i + 1];
      }
      JoinedWords(ws[1..]);
    }
  }

  lemma {:induction false} CanonicalEnds(e: string)
    requires Canonical(e)
    ensures !IsSpace(e[0]) && !IsSpace(e[|e| - 1]) && NoNewline(e)
  {
    hide IsSpace;
    FieldsAreWords("", e);
    JoinedWords(Fields(e));
  }

  lemma {:induction false} CommentsHoldNothing(lines: seq<string>)
    requires forall i :: 0 <= i < |lines| ==> NoNewline(TrimNewlines(lines[i]))
    ensures ClosedByNewline(CommentText(lines)) && Entries(Lines(CommentText(lines))) == []
  {
    hide EntryOf, Lines;
    if lines == [] {
      assert Lines("") == [] by { NoLines(); }
    } else {
      var n := |lines| - 1;
      var w := TrimNewlines(lines[n]);
      CommentsHoldNothing(lines[..n]);
      assert CommentText(lines) == CommentText(lines[..n]) + (("# " + w) + "\n");
      TextNext(CommentText(lines[..n]), "# " + w);
      CommentHoldsNothing(w);
    }
  }

  lemma {:induction false} NoLines()
    ensures Lines("") == []
  {
  }

  lemma {:induction false} EntriesHoldThemselves(entries: seq<string>)
    requires forall i :: 0 <= i < |entries| ==> Canonical(entries[i])
    ensures ClosedByNewline(EntriesText(entries)) && Entries(Lines(EntriesText(entries))) == entries
  {
    hide EntryOf, Lines, Canonical;
    if entries == [] {
      assert Lines("") == [] by { NoLines(); }
    } else {
      var n := |entries| - 1;
      EntriesHoldThemselves(entries[..n]);
      EntryHoldsItself(entries[n]);
      assert EntriesText(entries) == EntriesText(entries[..n]) + (entries[n] + "\n");
      TextNext(EntriesText(entries[..n]), entries[n]);
    }
  }

  /** What ParseList makes of a text. */
  function Parsed(text: string): seq<string> {
    Compact(Sort(Entries(Lines(text))))
  }

  /** What FormatList makes of a header and entries. */
  function Formatted(header: string, entries: seq<string>): string {
    CommentText(Lines(header)) + EntriesText(entries)
  }

  /** Reading a written list gives the list back, whatever header stands above it. */
  lemma {:induction false} ParseFormatted(header: string, entries: seq<string>)
    requires Strict(entries) && forall i :: 0 <= i < |entries| ==> Canonical(entries[i])
    ensures Parsed(Formatted(header, entries)) == entries
  {
    hide Canonical, Lines, Entries, CommentText, EntriesText, TrimNewlines;
    var lines := Lines(header);
    LinesTrimmed(header);
    forall i | 0 <= i < |lines| ensures NoNewline(TrimNewlines(lines[i])) {
      TrimmedLine(lines[i]);
    }
    CommentsHoldNothing(lines);
    EntriesHoldThemselves(entries);
    LinesConcat(CommentText(lines), EntriesText(entries));
    EntriesConcat(Lines(CommentText(lines)), Lines(EntriesText(entries)));
    assert [] + entries == entries;
    StrictKept(entries);
  }

  lemma {:induction false} EntryLines(entries: seq<string>)
    requires forall i :: 0 <= i < |entries| ==> NoNewline(entries[i])
    ensures ClosedByNewline(EntriesText(entries)) && |Lines(EntriesText(entries))| == |entries|
    ensures forall i :: 0 <= i < |entries| ==> Lines(EntriesText(entries))[i] == entries[i] + "\n"
  {
    hide Lines;
    if entries == [] {
      NoLines();
    } else {
      var n := |entries| - 1;
      EntryLines(entries[..n]);
      var w := entries[n];
      assert EntriesText(entries) == EntriesText(entries[..n]) + (w + "\n");
      LinesConcat(EntriesText(entries[..n]), w + "\n");
      LinesOne(w);
    }
  }

  lemma {:induction false} CommentLines(lines: seq<string>)
    requires forall i :: 0 <= i < |lines| ==> NoNewline(TrimNewlines(lines[i]))
    ensures ClosedByNewline(CommentText(lines)) && |Lines(CommentText(lines))| == |lines|
    ensures forall i :: 0 <= i < |lines| ==> Lines(CommentText(lines))[i] == "# " + TrimNewlines(lines[i]) + "\n"
  {
    hide Lines, TrimNewlines;
    if lines == [] {
      NoLines();
    } else {
      var n := |lines| - 1;
      CommentLines(lines[..n]);
      var w := "# " + TrimNewlines(lines[n]);
      assert CommentText(lines) == CommentText(lines[..n]) + (w + "\n");
      LinesConcat(CommentText(lines[..n]), w + "\n");
      LinesOne(w);
    }
  }

  /** A header line without the newline that may close it. */
  function HeaderLine(l: string): string {
    if l != "" && l[|l| - 1] == '\n' then l[..|l| - 1] else l
  }

  lemma {:induction false} TrimOneNewline(l: string)
    requires l != "" && NoNewline(l[..|l| - 1])
    ensures TrimNewlines(l) == HeaderLine(l)
  {
    var r := l[..|l| - 1];
    assert r != "" ==> r[|r| - 1] != '\n';
  }

  /** The written text line by line: the header's lines behind "# ", and then one entry a line. */
  lemma {:induction false} WrittenLines(header: string, entries: seq<string>)
    requires forall i :: 0 <= i < |entries| ==> NoNewline(entries[i])
    ensures var h, ls := Lines(header), Lines(Formatted(header, entries));
            && |ls| == |h| + |entries|
            && (forall i :: 0 <= i < |h| ==> ls[i] == "# " + HeaderLine(h[i]) + "\n")
            && (forall i :: 0 <= i < |entries| ==> ls[|h| + i] == entries[i] + "\n")
  {
    hide Lines, TrimNewlines;
    var h := Lines(header);
    LinesTrimmed(header);
    forall i | 0 <= i < |h| ensures TrimNewlines(h[i]) == HeaderLine(h[i]) && NoNewline(TrimNewlines(h[i])) {
      TrimOneNewline(h[i]);
      TrimmedLine(h[i]);
    }
    CommentLines(h);
    EntryLines(entries);
    LinesConcat(CommentText(h), EntriesText(entries));
  }

  /** A line holds an entry exactly when it has a rune that is no white space and the first such is not
      "#"; the entry's fields are the line's. */
  lemma {:induction false} EntryExactly(line: string)
    ensures |EntryOf(line)| <= 1
    ensures EntryOf(line) != [] <==>
            exists i :: 0 <= i < |line| && !IsSpace(line[i]) && line[i] != '#' && NoneBut(line, i)
    ensures EntryOf(line) != [] ==> Fields(EntryOf(line)[0]) == Fields(line)
  {
    hide IsSpace, Fields, TrimLeft, TrimRight;
    var l := TrimLeft(line);
    var t := TrimRight(l);
    TrimLeftSplits(line);
    TrimRightSplits(l);
    FieldsTrimmedLeft(line);
    FieldsTrimmedRight(l);
    if l != "" {
      assert t != "" && t[0] == l[0] == line[|line| - |l|] && NoneBut(line, |line| - |l|);
      EntryFields(t);
    }
  }

  lemma {:induction false} EntryFields(t: string)
    requires t != "" && !IsSpace(t[0])
    ensures Fields(t) != [] && Fields(JoinFields(Fields(t))) == Fields(t)
  {
    hide IsSpace;
    FieldsAreWords("", t);
    FieldsAreWords([t[0]], t[1..]);
    assert "" + [t[0]] == [t[0]];
    FieldsOfJoined(Fields(t));
  }

  predicate NoneBut(line: string, i: nat)
    requires i <= |line|
  {
    forall j :: 0 <= j < i ==> IsSpace(line[j])
  }

  lemma {:induction false} EntryCanonical(line: string)
    ensures EntryOf(line) != [] ==> |EntryOf(line)| == 1 && Canonical(EntryOf(line)[0])
  {
    hide IsSpace;
    var t := TrimSpace(line);
    if t != "" && !IsComment(t) {
      TrimSpaceTrims(line);
      FieldsAreWords("", t);
      FieldsAreWords([t[0]], t[1..]);
      assert "" + [t[0]] == [t[0]];
      JoinedWords(Fields(t));
      FieldsOfJoined(Fields(t));
    }
  }

  lemma {:induction false} EntriesCanonical(lines: seq<string>)
    ensures forall i :: 0 <= i < |Entries(lines)| ==> Canonical(Entries(lines)[i])
  {
    hide EntryOf, Canonical;
    if lines != [] {
      EntriesCanonical(lines[..|lines| - 1]);
      EntryCanonical(lines[|lines| - 1]);
    }
  }

  /** Any text is read as a strictly sorted list of canonical entries, so writing what was read and
      reading it again changes nothing. */
  lemma {:induction false} ParseStable(header: string, text: string)
    ensures Strict(Parsed(text)) && (forall e :: e in Parsed(text) <==> e in Entries(Lines(text)))
    ensures Parsed(Formatted(header, Parsed(text))) == Parsed(text)
  {
    hide Canonical, Lines, Entries, Sort, Compact, Formatted, Strict, Sorted;
    var es := Entries(Lines(text));
    SortSorts(es);
    CompactStrict(Sort(es));
    EntriesCanonical(Lines(text));
    forall i | 0 <= i < |Parsed(text)| ensures Canonical(Parsed(text)[i]) {
      assert Parsed(text)[i] in es;
    }
    ParseFormatted(header, Parsed(text));
  }
}
