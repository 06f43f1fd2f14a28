/** How fclones' option parser, clap, reads the tokens behind `fclones group`: the committed option
    list, one token's reading, and the reading of a whole command line. A token that looks like an
    option is never read as the value of the option ahead, which is clap's default. Whether a value is
    valid, or an option may be given twice, is not told apart. */
module Clap {
  import opened Options
  import opened Search

  // ----- the options of `fclones group` -----

  datatype Arity = NoValue | OneValue

  predicate IsSwitch(name: string) {
    name in {"stdin", "hidden", "no-ignore", "follow-links", "match-links", "symbolic-links", "isolate", "one-fs",
             "in-place", "no-copy", "unique", "ignore-case", "regex", "skip-content-hash", "cache", "help"}
  }

  predicate TakesValue(name: string) {
    name in {"output", "format", "depth", "transform", "rf-over", "rf-under", "min", "max", "max-prefix-size",
             "max-suffix-size", "name", "path", "exclude", "hash-fn", "threads", "base-dir"}
  }

  function ArityOf(name: string): Option<Arity> {
    if IsSwitch(name) then Some(NoValue) else if TakesValue(name) then Some(OneValue) else None
  }

  /** The option a short spelling stands for. */
  function LongName(c: char): Option<string> {
    match c
    case '.' => Some("hidden")
    case 'A' => Some("no-ignore")
    case 'L' => Some("follow-links")
    case 'H' => Some("match-links")
    case 'S' => Some("symbolic-links")
    case 'I' => Some("isolate")
    case '1' => Some("one-fs")
    case 'i' => Some("ignore-case")
    case 'x' => Some("regex")
    case 'h' => Some("help")
    case 'o' => Some("output")
    case 'f' => Some("format")
    case 'd' => Some("depth")
    case 'n' => Some("rf-over")
    case 's' => Some("min")
    case 't' => Some("threads")
    case _ => None
  }

  predicate IsSwitchShort(c: char) {
    LongName(c).Some? && IsSwitch(LongName(c).value)
  }

  lemma {:induction false} ShortsKnown(c: char)
    requires LongName(c).Some?
    ensures ArityOf(LongName(c).value).Some?
    ensures IsSwitchShort(c) <==> c in {'.', 'A', 'L', 'H', 'S', 'I', '1', 'i', 'x', 'h'}
    ensures LongName(c).value == "format" <==> c == 'f'
    ensures LongName(c).value != "cache"
  {
  }

  /** The short spellings as the help text pairs them with the long ones, in its order. */
  const SHORT_OPTIONS: seq<(char, string)> := [
    ('o', "output"), ('f', "format"), ('d', "depth"), ('.', "hidden"), ('A', "no-ignore"), ('L', "follow-links"),
    ('H', "match-links"), ('S', "symbolic-links"), ('I', "isolate"), ('1', "one-fs"), ('n', "rf-over"), ('s', "min"),
    ('i', "ignore-case"), ('x', "regex"), ('t', "threads"), ('h', "help")
  ]

  /** A rune is a short option exactly when the help text lists it, and it stands for the option it is
      listed with. */
  lemma {:induction false} ShortsListed(c: char)
    ensures LongName(c).Some? <==> exists k :: 0 <= k < |SHORT_OPTIONS| && SHORT_OPTIONS[k].0 == c
    ensures forall k :: 0 <= k < |SHORT_OPTIONS| && SHORT_OPTIONS[k].0 == c ==> LongName(c) == Some(SHORT_OPTIONS[k].1)
  {
    if LongName(c).Some? {
      var k := match c
        case 'o' => 0 case 'f' => 1 case 'd' => 2 case '.' => 3 case 'A' => 4 case 'L' => 5 case 'H' => 6 case 'S' => 7
        case 'I' => 8 case '1' => 9 case 'n' => 10 case 's' => 11 case 'i' => 12 case 'x' => 13 case 't' => 14
        case _ => 15;
      assert SHORT_OPTIONS[k].0 == c;
    }
  }

  predicate IsNameChar(c: char) {
    'a' <= c <= 'z' || c == '-'
  }

  predicate IsName(n: string) {
    forall i :: 0 <= i < |n| ==> IsNameChar(n[i])
  }

  /** Every long option is written in lower-case letters and hyphens. */
  lemma {:induction false} OptionsAreNames(n: string)
    requires ArityOf(n).Some?
    ensures IsName(n)
  {
    hide IsName;
    if IsSwitch(n) {
      PathSwitches();
      TransformSwitches();
      MatchSwitches();
    } else {
      ReportOptions();
      SizeOptions();
      PatternOptions();
    }
  }

  lemma {:induction false} PathSwitches()
    ensures IsName("stdin") && IsName("hidden") && IsName("no-ignore") && IsName("follow-links") && IsName("match-links")
  {
  }

  lemma {:induction false} TransformSwitches()
    ensures IsName("symbolic-links") && IsName("isolate") && IsName("one-fs") && IsName("in-place") && IsName("no-copy")
  {
  }

  lemma {:induction false} MatchSwitches()
    ensures IsName("unique") && IsName("ignore-case") && IsName("regex") && IsName("skip-content-hash")
    ensures IsName("cache") && IsName("help")
  {
  }

  lemma {:induction false} ReportOptions()
    ensures IsName("output") && IsName("format") && IsName("depth") && IsName("transform")
    ensures IsName("rf-over") && IsName("rf-under")
  {
  }

  lemma {:induction false} SizeOptions()
    ensures IsName("min") && IsName("max") && IsName("max-prefix-size") && IsName("max-suffix-size") && IsName("name")
  {
  }

  lemma {:induction false} PatternOptions()
    ensures IsName("path") && IsName("exclude") && IsName("hash-fn") && IsName("threads") && IsName("base-dir")
  {
  }

  // ----- one token -----

  /** A token read as options: switches set, values given, and an option still waiting for its value. */
  datatype Read = Switch(name: string) | Valued(name: string, value: string) | Path(text: string)

  datatype TokenRead = Unreadable | Reads(items: seq<Read>, awaiting: Option<string>)

  function EqualsAt(body: string): int {
    Index(body, "=")
  }

  /** The name of a long option, up to an attached value. */
  function NameOf(body: string): string {
    if EqualsAt(body) == -1 then body else body[..EqualsAt(body)]
  }

  function ReadLong(body: string): TokenRead {
    var name, eq := NameOf(body), EqualsAt(body);
    match ArityOf(name)
    case None => Unreadable
    case Some(NoValue) => if eq == -1 then Reads([Switch(name)], None) else Unreadable
    case Some(OneValue) => if eq == -1 then Reads([], Some(name)) else Reads([Valued(name, body[eq + 1..])], None)
  }

  /** A cluster of short options: switches, and at most one option that takes the rest as its value. */
  function ReadShort(cluster: string): TokenRead {
    if cluster == "" then Reads([], None)
    else if LongName(cluster[0]).None? then Unreadable
    else
      var name, rest := LongName(cluster[0]).value, cluster[1..];
      if IsSwitch(name) then
        match ReadShort(rest)
        case Unreadable => Unreadable
        case Reads(rs, awaiting) => Reads([Switch(name)] + rs, awaiting)
      else if rest == "" then Reads([], Some(name))
      else Reads([Valued(name, if rest[0] == '=' then rest[1..] else rest)], None)
  }

  /** Whether a token looks like an option. */
  predicate OptionLike(t: string) {
    |t| >= 2 && t[0] == '-' && t != "--"
  }

  function ReadToken(t: string): TokenRead
    requires OptionLike(t)
  {
    if t[1] == '-' then ReadLong(t[2..]) else ReadShort(t[1..])
  }

  /** The token ends in an option that takes a value and has none attached. */
  predicate AwaitsValue(t: string) {
    OptionLike(t) && ReadToken(t).Reads? && ReadToken(t).awaiting.Some?
  }

  // ----- a whole command line -----

  /** `literal` once "--" has been read: every later token is a path. */
  datatype Line = Refused | Line(items: seq<Read>, awaiting: Option<string>, literal: bool)

  const START := Line([], None, false)

  function Step(l: Line, t: string): Line {
    if l.Refused? then Refused
    else if l.literal then l.(items := l.items + [Path(t)])
    else if t == "--" then
      if l.awaiting.Some? then Refused else l.(literal := true)
    else if OptionLike(t) then
      match ReadToken(t)
      case Unreadable => Refused
      case Reads(rs, awaiting) => if l.awaiting.Some? then Refused else Line(l.items + rs, awaiting, false)
    else if l.awaiting.Some? then Line(l.items + [Valued(l.awaiting.value, t)], None, false)
    else l.(items := l.items + [Path(t)])
  }

  function ReadFrom(l: Line, ts: seq<string>): Line {
    if ts == [] then l else Step(ReadFrom(l, ts[..|ts| - 1]), ts[|ts| - 1])
  }

  /** An option without its value at the end is refused as well. */
  function ReadLine(ts: seq<string>): Line {
    var l := ReadFrom(START, ts);
    if l.Line? && l.awaiting.Some? then Refused else l
  }

  lemma {:induction false} ReadAppend(l: Line, a: seq<string>, b: seq<string>)
    ensures ReadFrom(l, a + b) == ReadFrom(ReadFrom(l, a), b)
  {
    hide Step;
    if b == [] {
      assert a + b == a;
    } else {
      assert (a + b)[..|a + b| - 1] == a + b[..|b| - 1];
      ReadAppend(l, a, b[..|b| - 1]);
    }
  }

  // ----- which tokens are read as paths -----

  function PathsIn(items: seq<Read>): seq<string> {
    if items == [] then []
    else PathsIn(items[..|items| - 1]) + match items[|items| - 1] case Path(text) => [text] case _ => []
  }

  lemma {:induction false} PathsAppend(a: seq<Read>, b: seq<Read>)
    ensures PathsIn(a + b) == PathsIn(a) + PathsIn(b)
  {
    if b == [] {
      assert a + b == a;
    } else {
      assert (a + b)[..|a + b| - 1] == a + b[..|b| - 1];
      PathsAppend(a, b[..|b| - 1]);
    }
  }

  lemma {:induction false} PathsOne(r: Read)
    ensures PathsIn([r]) == match r case Path(text) => [text] case _ => []
  {
    assert [r][..0] == [];
  }

  lemma {:induction false} ShortReadsNoPaths(cluster: string)
    requires ReadShort(cluster).Reads?
    ensures PathsIn(ReadShort(cluster).items) == []
  {
    if cluster != "" {
      var name := LongName(cluster[0]).value;
      if IsSwitch(name) {
        ShortReadsNoPaths(cluster[1..]);
        PathsOne(Switch(name));
        PathsAppend([Switch(name)], ReadShort(cluster[1..]).items);
      } else if |cluster| > 1 {
        PathsOne(ReadShort(cluster).items[0]);
      }
    }
  }

  lemma {:induction false} TokenReadsNoPaths(t: string)
    requires OptionLike(t) && ReadToken(t).Reads?
    ensures PathsIn(ReadToken(t).items) == []
  {
    hide PathsIn;
    if t[1] == '-' {
      LongReadsNoPaths(t[2..]);
    } else {
      ShortReadsNoPaths(t[1..]);
    }
  }

  lemma {:induction false} LongReadsNoPaths(body: string)
    requires ReadLong(body).Reads?
    ensures PathsIn(ReadLong(body).items) == []
  {
    hide ArityOf;
    if ReadLong(body).items != [] {
      PathsOne(ReadLong(body).items[0]);
    }
  }

  /** What one token adds to the paths, and when it makes an option wait. */
  lemma {:induction false} StepPaths(l: Line, t: string)
    requires l.Line? && Step(l, t).Line?
    ensures var m := Step(l, t);
            && m.literal == (l.literal || t == "--")
            && (!l.literal && t == "--" ==> l.awaiting == None)
            && (!m.literal && OptionLike(t) ==> l.awaiting == None && PathsIn(m.items) == PathsIn(l.items)
                                                && (m.awaiting.Some? <==> AwaitsValue(t)))
            && (!m.literal && !OptionLike(t) ==>
                  m.awaiting == None && PathsIn(m.items) == PathsIn(l.items) + if l.awaiting.Some? then [] else [t])
            && PathsIn(l.items) <= PathsIn(m.items)
  {
    hide PathsIn, ReadToken;
    PathsAppend(l.items, [Path(t)]);
    PathsOne(Path(t));
    if OptionLike(t) && ReadToken(t).Reads? {
      TokenReadsNoPaths(t);
      PathsAppend(l.items, ReadToken(t).items);
    }
    if l.awaiting.Some? {
      PathsAppend(l.items, [Valued(l.awaiting.value, t)]);
      PathsOne(Valued(l.awaiting.value, t));
    }
  }

  /** The token list ends with an option awaiting its value, `waiting` saying so of what stands ahead. */
  predicate EndsWaiting(waiting: bool, ts: seq<string>) {
    if ts == [] then waiting else AwaitsValue(ts[|ts| - 1])
  }

  /** Every bare token (a value, a lone "-" or "--" alike) stands directly behind an option that takes
      a value and has none attached. */
  predicate BareBehindOptions(waiting: bool, ts: seq<string>) {
    forall i :: 0 <= i < |ts| && !OptionLike(ts[i]) ==> EndsWaiting(waiting, ts[..i])
  }

  lemma {:induction false} BareNext(waiting: bool, ts: seq<string>)
    ensures ts == [] ==> BareBehindOptions(waiting, ts)
    ensures ts != [] ==>
              var r, t := ts[..|ts| - 1], ts[|ts| - 1];
              BareBehindOptions(waiting, ts)
              <==> BareBehindOptions(waiting, r) && (!OptionLike(t) ==> EndsWaiting(waiting, r))
  {
    hide OptionLike, EndsWaiting;
    if ts != [] {
      var n := |ts| - 1;
      var r := ts[..n];
      assert forall i :: 0 <= i < n ==> r[i] == ts[i] && r[..i] == ts[..i];
      if BareBehindOptions(waiting, r) && (!OptionLike(ts[n]) ==> EndsWaiting(waiting, r)) {
        forall i | 0 <= i < |ts| && !OptionLike(ts[i]) ensures EndsWaiting(waiting, ts[..i]) {
          assert i < n ==> !OptionLike(r[i]);
        }
      }
    }
  }

  /** A readable token list adds no path and leaves the options open exactly when each of its bare
      tokens stands directly behind an option awaiting its value. */
  lemma {:induction false} PathFreeExactly(l: Line, ts: seq<string>)
    requires l.Line? && !l.literal
    requires ReadFrom(l, ts).Line?
    ensures var m := ReadFrom(l, ts);
            && PathsIn(l.items) <= PathsIn(m.items)
            && (!m.literal && PathsIn(m.items) == PathsIn(l.items) <==> BareBehindOptions(l.awaiting.Some?, ts))
            && (!m.literal ==> (m.awaiting.Some? <==> EndsWaiting(l.awaiting.Some?, ts)))
  {
    hide Step, OptionLike, AwaitsValue, PathsIn, BareBehindOptions;
    BareNext(l.awaiting.Some?, ts);
    if ts != [] {
      var r, t := ts[..|ts| - 1], ts[|ts| - 1];
      StepKeepsRefusal(ReadFrom(l, r), t);
      PathFreeExactly(l, r);
      StepPaths(ReadFrom(l, r), t);
      AwaitingLooksLikeOption(t);
    }
  }

  lemma {:induction false} AwaitingLooksLikeOption(t: string)
    ensures AwaitsValue(t) ==> OptionLike(t)
    ensures t == "--" ==> !OptionLike(t)
  {
  }

  lemma {:induction false} StepKeepsRefusal(l: Line, t: string)
    ensures Step(l, t).Line? ==> l.Line?
  {
  }

  // ----- which options are read -----

  predicate NameIn(names: set<string>, r: Read) {
    !r.Path? && r.name in names
  }

  /** Some option of the given names is among the reads, or waits for its value. */
  predicate Mentions(names: set<string>, items: seq<Read>, awaiting: Option<string>) {
    (exists i :: 0 <= i < |items| && NameIn(names, items[i])) || (awaiting.Some? && awaiting.value in names)
  }

  predicate TokenMentions(names: set<string>, t: string) {
    OptionLike(t) && ReadToken(t).Reads? && Mentions(names, ReadToken(t).items, ReadToken(t).awaiting)
  }

  /** Some token ahead of any "--" is read as one of the options. */
  predicate SomeTokenMentions(names: set<string>, ts: seq<string>) {
    exists i :: 0 <= i < |ts| && "--" !in ts[..i] && TokenMentions(names, ts[i])
  }

  lemma {:induction false} MentionsAppend(names: set<string>, a: seq<Read>, b: seq<Read>, awaiting: Option<string>)
    ensures Mentions(names, a + b, awaiting) <==> Mentions(names, a, None) || Mentions(names, b, awaiting)
  {
    hide NameIn;
    if exists i :: 0 <= i < |a| && NameIn(names, a[i]) {
      var i :| 0 <= i < |a| && NameIn(names, a[i]);
      assert NameIn(names, (a + b)[i]);
    }
    if exists i :: 0 <= i < |b| && NameIn(names, b[i]) {
      var i :| 0 <= i < |b| && NameIn(names, b[i]);
      assert NameIn(names, (a + b)[|a| + i]);
    }
  }

  lemma {:induction false} StepMentions(names: set<string>, l: Line, t: string)
    requires l.Line? && Step(l, t).Line?
    ensures var m := Step(l, t);
            Mentions(names, m.items, m.awaiting)
            <==> Mentions(names, l.items, l.awaiting) || (!l.literal && TokenMentions(names, t))
  {
    hide Mentions, ReadToken;
    MentionsAppend(names, l.items, [Path(t)], l.awaiting);
    MentionsNone(names, l.items, l.awaiting, t);
    if l.awaiting.Some? {
      MentionsAppend(names, l.items, [Valued(l.awaiting.value, t)], None);
    }
    if OptionLike(t) && ReadToken(t).Reads? {
      MentionsAppend(names, l.items, ReadToken(t).items, ReadToken(t).awaiting);
    }
  }

  lemma {:induction false} MentionsNone(names: set<string>, items: seq<Read>, awaiting: Option<string>, t: string)
    ensures Mentions(names, items, awaiting)
            <==> Mentions(names, items, None) || (awaiting.Some? && awaiting.value in names)
    ensures Mentions(names, [Path(t)], awaiting) <==> awaiting.Some? && awaiting.value in names
    ensures awaiting.Some? ==> (Mentions(names, [Valued(awaiting.value, t)], None) <==> awaiting.value in names)
  {
    if awaiting.Some? && awaiting.value in names {
      assert NameIn(names, [Valued(awaiting.value, t)][0]);
    }
  }

  /** A readable command line sets one of the options exactly when one of its tokens, ahead of any
      "--", is read as that option. */
  lemma {:induction false} MentionsExactly(names: set<string>, l: Line, ts: seq<string>)
    requires l.Line? && ReadFrom(l, ts).Line? && !l.literal
    ensures var m := ReadFrom(l, ts);
            && (m.literal <==> "--" in ts)
            && (Mentions(names, m.items, m.awaiting)
                <==> Mentions(names, l.items, l.awaiting) || SomeTokenMentions(names, ts))
  {
    hide Step, Mentions, TokenMentions;
    if ts != [] {
      var n := |ts| - 1;
      var r, t := ts[..n], ts[n];
      assert ts == r + [t];
      StepKeepsRefusal(ReadFrom(l, r), t);
      MentionsExactly(names, l, r);
      StepPaths(ReadFrom(l, r), t);
      StepMentions(names, ReadFrom(l, r), t);
      assert forall i :: 0 <= i < n ==> ts[..i] == r[..i] && ts[i] == r[i];
    }
  }

  /** Reading on takes back no path, refusal or "--". */
  lemma {:induction false} PathsGrow(l: Line, ts: seq<string>)
    requires ReadFrom(l, ts).Line?
    ensures l.Line? && PathsIn(l.items) <= PathsIn(ReadFrom(l, ts).items)
    ensures l.literal ==> ReadFrom(l, ts).literal
  {
    hide Step, PathsIn;
    if ts != [] {
      var r, t := ts[..|ts| - 1], ts[|ts| - 1];
      StepKeepsRefusal(ReadFrom(l, r), t);
      PathsGrow(l, r);
      StepPaths(ReadFrom(l, r), t);
    }
  }

  lemma {:induction false} SomeTokenAppend(names: set<string>, a: seq<string>, b: seq<string>)
    ensures SomeTokenMentions(names, a + b)
            <==> SomeTokenMentions(names, a) || ("--" !in a && SomeTokenMentions(names, b))
  {
    hide TokenMentions;
    var c := a + b;
    assert forall i :: 0 <= i < |a| ==> c[i] == a[i] && c[..i] == a[..i];
    assert forall i :: 0 <= i < |b| ==> c[|a| + i] == b[i] && c[..|a| + i] == a + b[..i];
    if SomeTokenMentions(names, c) {
      var i :| 0 <= i < |c| && "--" !in c[..i] && TokenMentions(names, c[i]);
      if i >= |a| {
        assert c[i] == b[i - |a|] && c[..i] == a + b[..i - |a|];
      }
    }
  }

  /** Where no token looks like an option, all are paths. */
  lemma {:induction false} PlainPathsRead(ts: seq<string>)
    requires forall i :: 0 <= i < |ts| ==> !OptionLike(ts[i]) && ts[i] != "--"
    ensures ReadFrom(START, ts).Line? && !ReadFrom(START, ts).literal && ReadFrom(START, ts).awaiting == None
    ensures PathsIn(ReadFrom(START, ts).items) == ts
  {
    if ts != [] {
      var n := |ts| - 1;
      PlainPathsRead(ts[..n]);
      PathsAppend(ReadFrom(START, ts[..n]).items, [Path(ts[n])]);
      PathsOne(Path(ts[n]));
    }
  }
}
