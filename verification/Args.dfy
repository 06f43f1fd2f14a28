/** The shell-style argument parser: a rune-by-rune state machine, an independent lexical grammar,
    and a quoter. Text is a sequence of runes. */
module Args {
  import opened Text

  datatype ParseError = UnterminatedQuote(quote: char) | TrailingBackslash

  datatype ParseResult = Ok(args: seq<string>) | Err(error: ParseError)

  predicate IsQuote(r: char) {
    r == '"' || r == '\''
  }

  predicate IsBlank(r: char) {
    r == ' ' || r == '\t'
  }

  // ----- the state machine -----

  datatype State = State(args: seq<string>, current: string, quoteChar: char, inQuote: bool, escaped: bool) {
    function Flushed(): State {
      if |current| > 0 then this.(args := args + [current], current := "") else this
    }

    function Step(r: char): State {
      if escaped then this.(current := current + [r], escaped := false)
      else if r == '\\' then this.(escaped := true)
      else if inQuote then
        if r == quoteChar then this.(inQuote := false, quoteChar := '\0')
        else this.(current := current + [r])
      else if IsQuote(r) then this.(inQuote := true, quoteChar := r)
      else if IsBlank(r) then Flushed()
      else this.(current := current + [r])
    }

    function Finish(): ParseResult {
      if inQuote then Err(UnterminatedQuote(quoteChar))
      else if escaped then Err(TrailingBackslash)
      else Ok(Flushed().args)
    }
  }

  const START := State([], "", '\0', false, false)

  function Steps(st: State, input: string): State
    decreases |input|
  {
    if input == "" then st else Steps(st.Step(input[0]), input[1..])
  }

  class Parser {
    var args: seq<string>
    var current: string
    var quoteChar: char
    var inQuote: bool
    var escaped: bool

    ghost function Value(): State
      reads this
    {
      State(args, current, quoteChar, inQuote, escaped)
    }

    constructor ()
      ensures Value() == START
    {
      args := [];
      current := "";
      quoteChar := '\0';
      inQuote := false;
      escaped := false;
    }

    method FlushToken()
      modifies this
      ensures Value() == old(Value()).Flushed()
    {
      if |current| > 0 {
        args := args + [current];
        current := "";
      }
    }

    method Step(r: char)
      modifies this
      ensures Value() == old(Value()).Step(r)
    {
      if escaped {
        current := current + [r];
        escaped := false;
        return;
      }
      if r == '\\' {
        escaped := true;
        return;
      }
      if inQuote {
        if r == quoteChar {
          inQuote := false;
          quoteChar := '\0';
          return;
        }
        current := current + [r];
      } else if r == '"' || r == '\'' {
        inQuote := true;
        quoteChar := r;
      } else if r == ' ' || r == '\t' {
        FlushToken();
      } else {
        current := current + [r];
      }
    }
  }

  /** `args.Parse`: it answers what the lexical grammar below says. */
  method ParseInput(input: string) returns (res: ParseResult)
    ensures res == Parse(input)
  {
    var p := new Parser();
    for i := 0 to |input|
      invariant Steps(p.Value(), input[i..]) == Steps(START, input)
    {
      assert input[i..][1..] == input[i + 1..];
      p.Step(input[i]);
    }
    MachineMeetsGrammar(input);
    if p.inQuote {
      return Err(UnterminatedQuote(p.quoteChar));
    }
    if p.escaped {
      return Err(TrailingBackslash);
    }
    p.FlushToken();
    return Ok(p.args);
  }

  // ----- the lexical grammar -----

  /** What a rune of the input is once quotes and escapes are resolved. */
  datatype Unit = Lit(r: char) | Blank

  datatype LexResult = Units(units: seq<Unit>) | LexErr(error: ParseError) {
    function After(u: Unit): LexResult {
      match this
      case Units(us) => Units([u] + us)
      case LexErr(_) => this
    }
  }

  /** Outside quotes: a backslash makes the next rune literal, a quote opens a quoted part. */
  function Plain(s: string): LexResult
    decreases |s|
  {
    if s == "" then Units([])
    else if s[0] == '\\' then
      if |s| == 1 then LexErr(TrailingBackslash) else Plain(s[2..]).After(Lit(s[1]))
    else if IsQuote(s[0]) then Quoted(s[1..], s[0])
    else Plain(s[1..]).After(if IsBlank(s[0]) then Blank else Lit(s[0]))
  }

  /** Inside quotes everything is literal up to the closing quote; a backslash still escapes. */
  function Quoted(s: string, quote: char): LexResult
    decreases |s|
  {
    if s == "" then LexErr(UnterminatedQuote(quote))
    else if s[0] == '\\' then
      if |s| == 1 then LexErr(UnterminatedQuote(quote)) else Quoted(s[2..], quote).After(Lit(s[1]))
    else if s[0] == quote then Plain(s[1..])
    else Quoted(s[1..], quote).After(Lit(s[0]))
  }

  /** The words of a unit sequence: its runs of literals between blanks, `open` being the run so far. */
  function Words(open: string, us: seq<Unit>): seq<string>
    decreases us
  {
    if us == [] then Nonempty(open)
    else match us[0]
      case Lit(r) => Words(open + [r], us[1..])
      case Blank => Nonempty(open) + Words("", us[1..])
  }

  function Parse(input: string): ParseResult {
    match Plain(input)
    case Units(us) => Ok(Words("", us))
    case LexErr(e) => Err(e)
  }

  function Complete(args: seq<string>, open: string, lex: LexResult): ParseResult {
    match lex
    case Units(us) => Ok(args + Words(open, us))
    case LexErr(e) => Err(e)
  }

  lemma {:induction false} CompleteAfter(args: seq<string>, open: string, lex: LexResult)
    ensures forall r :: Complete(args, open, lex.After(Lit(r))) == Complete(args, open + [r], lex)
    ensures Complete(args, open, lex.After(Blank)) == Complete(args + Nonempty(open), "", lex)
  {
    if lex.Units? {
      forall u: Unit ensures ([u] + lex.units)[1..] == lex.units {}
      assert forall r :: Words(open, [Lit(r)] + lex.units) == Words(open + [r], lex.units);
    }
  }

  lemma {:induction false} MachineRun(st: State, s: string)
    requires !st.escaped
    ensures !st.inQuote ==> Steps(st, s).Finish() == Complete(st.args, st.current, Plain(s))
    ensures st.inQuote ==> Steps(st, s).Finish() == Complete(st.args, st.current, Quoted(s, st.quoteChar))
    decreases |s|
  {
    hide Words;
    if s == "" {
      WordsEnd(st.current);
    } else {
      var next := st.Step(s[0]);
      var rest := if s[0] == '\\' && |s| > 1 then s[2..] else s[1..];
      var lex := if st.inQuote then Quoted(rest, st.quoteChar) else Plain(rest);
      CompleteAfter(st.args, st.current, lex);
      if s[0] == '\\' {
        if |s| > 1 {
          assert s[1..][0] == s[1] && s[1..][1..] == s[2..];
          MachineRun(next.Step(s[1]), s[2..]);
        } else {
          assert s[1..] == "";
        }
      } else {
        MachineRun(next, s[1..]);
      }
    }
  }

  lemma {:induction false} WordsEnd(open: string)
    ensures Words(open, []) == Nonempty(open)
  {
  }

  /** The state machine computes exactly what the grammar describes, errors included. */
  lemma {:induction false} MachineMeetsGrammar(input: string)
    ensures Steps(START, input).Finish() == Parse(input)
  {
    hide Steps;
    MachineRun(START, input);
  }

  // ----- which inputs are accepted -----

  /** The length of the run of backslashes at the end of the input. */
  function TrailingBackslashes(s: string): (n: nat)
    ensures n <= |s|
  {
    if s == "" || s[|s| - 1] != '\\' then 0 else 1 + TrailingBackslashes(s[..|s| - 1])
  }

  /** The quote that is still open at the end of the input, if there is one. */
  datatype Quoting = NoQuote | Open(quote: char)

  function OpenQuote(q: Quoting, s: string): Quoting
    decreases |s|
  {
    if s == "" || s == "\\" then q
    else if s[0] == '\\' then OpenQuote(q, s[2..])
    else match q
      case Open(c) => OpenQuote(if s[0] == c then NoQuote else q, s[1..])
      case NoQuote => OpenQuote(if IsQuote(s[0]) then Open(s[0]) else NoQuote, s[1..])
  }

  lemma {:induction false} TrailingBackslashesSplit(s: string, k: nat)
    requires k <= |s|
    ensures var n := TrailingBackslashes(s[k..]);
            TrailingBackslashes(s) == if n < |s| - k then n else n + TrailingBackslashes(s[..k])
    decreases |s|
  {
    if k == |s| {
      assert s[..k] == s;
    } else if s[|s| - 1] == '\\' {
      var r := s[..|s| - 1];
      TrailingBackslashesSplit(r, k);
      assert r[k..] == s[k..][..|s[k..]| - 1] && r[..k] == s[..k];
    }
  }

  /** The parity of the trailing run survives taking one escape pair or one other rune off the front. */
  lemma {:induction false} TrailingParity(s: string)
    requires s != ""
    ensures s[0] != '\\' ==> TrailingBackslashes(s) == TrailingBackslashes(s[1..])
    ensures s[0] == '\\' && |s| > 1 ==> TrailingBackslashes(s) % 2 == TrailingBackslashes(s[2..]) % 2
  {
    TrailingBackslashesSplit(s, 1);
    assert s[..1][..0] == "";
    if |s| > 1 {
      TrailingBackslashesSplit(s, 2);
      assert s[..2][..1] == s[..1];
    }
  }

  lemma {:induction false} LexErrors(q: Quoting, s: string)
    ensures var lex := match q case NoQuote => Plain(s) case Open(c) => Quoted(s, c);
            && (OpenQuote(q, s).Open? ==> lex == LexErr(UnterminatedQuote(OpenQuote(q, s).quote)))
            && (OpenQuote(q, s).NoQuote? && TrailingBackslashes(s) % 2 == 1 ==> lex == LexErr(TrailingBackslash))
            && (OpenQuote(q, s).NoQuote? && TrailingBackslashes(s) % 2 == 0 ==> lex.Units?)
    decreases |s|
  {
    if s != "" {
      TrailingParity(s);
      if s[0] == '\\' {
        if |s| > 1 {
          LexErrors(q, s[2..]);
        } else {
          assert s == "\\" && s[..0] == "";
        }
      } else {
        match q
        case Open(c) => LexErrors(if s[0] == c then NoQuote else q, s[1..]);
        case NoQuote => LexErrors(if IsQuote(s[0]) then Open(s[0]) else NoQuote, s[1..]);
      }
    }
  }

  /** An input is refused exactly when a quote is left open, and then for that quote, or when the
      backslashes at its very end are odd in number. */
  lemma {:induction false} RefusedExactly(s: string)
    ensures Parse(s).Err? <==> OpenQuote(NoQuote, s).Open? || TrailingBackslashes(s) % 2 == 1
    ensures OpenQuote(NoQuote, s).Open? ==> Parse(s) == Err(UnterminatedQuote(OpenQuote(NoQuote, s).quote))
    ensures Parse(s).Err? && OpenQuote(NoQuote, s).NoQuote? ==> Parse(s) == Err(TrailingBackslash)
  {
    LexErrors(NoQuote, s);
  }

  // ----- what the tokens hold -----

  function Glue(words: seq<string>): string {
    if words == [] then "" else words[0] + Glue(words[1..])
  }

  lemma {:induction false} WordsNonempty(open: string, us: seq<Unit>)
    ensures "" !in Words(open, us)
    decreases us
  {
    if us != [] {
      match us[0]
      case Lit(r) => WordsNonempty(open + [r], us[1..]);
      case Blank => WordsNonempty("", us[1..]);
    }
  }

  /** What the rune at a position is for, told by the text ahead of it: an odd run of backslashes there
      makes it literal, and else it depends on the quote that is open. */
  datatype Role = Literal | Separator | QuoteMark | Escaper

  function RoleAt(s: string, i: nat): Role
    requires i < |s|
  {
    var q := OpenQuote(NoQuote, s[..i]);
    if TrailingBackslashes(s[..i]) % 2 == 1 then Literal
    else if s[i] == '\\' then Escaper
    else if (if q.Open? then s[i] == q.quote else IsQuote(s[i])) then QuoteMark
    else if q.NoQuote? && IsBlank(s[i]) then Separator
    else Literal
  }

  /** The runes at literal positions, in order. */
  function LiteralRunes(s: string, upTo: nat): string
    requires upTo <= |s|
  {
    if upTo == 0 then ""
    else LiteralRunes(s, upTo - 1) + if RoleAt(s, upTo - 1).Literal? then [s[upTo - 1]] else ""
  }

  lemma {:induction false} OpenQuoteOne(q: Quoting, r: char)
    ensures OpenQuote(q, [r]) == if r == '\\' then q
                                 else if q.Open? then (if r == q.quote then NoQuote else q)
                                 else if IsQuote(r) then Open(r) else NoQuote
  {
    if r == '\\' {
      assert [r] == "\\";
    } else {
      assert [r][1..] == "";
    }
  }

  lemma {:induction false} OpenQuoteNext(q: Quoting, s: string, r: char)
    ensures var was := OpenQuote(q, s);
            OpenQuote(q, s + [r]) == if TrailingBackslashes(s) % 2 == 1 || r == '\\' then was
                                     else if was.Open? then (if r == was.quote then NoQuote else was)
                                     else if IsQuote(r) then Open(r) else NoQuote
    decreases |s|
  {
    var t := s + [r];
    if s == "" {
      OpenQuoteOne(q, r);
      assert t == [r];
    } else if s == "\\" {
      assert t[2..] == "" && s[..0] == "";
    } else {
      TrailingParity(s);
      if s[0] == '\\' {
        assert t[2..] == s[2..] + [r];
        OpenQuoteNext(q, s[2..], r);
      } else {
        assert t[1..] == s[1..] + [r];
        var next := match q case Open(c) => (if s[0] == c then NoQuote else q)
                            case NoQuote => if IsQuote(s[0]) then Open(s[0]) else NoQuote;
        OpenQuoteNext(next, s[1..], r);
      }
    }
  }

  lemma {:induction false} StepsNext(st: State, s: string, r: char)
    ensures Steps(st, s + [r]) == Steps(st, s).Step(r)
    decreases |s|
  {
    if s == "" {
      assert (s + [r])[1..] == "";
    } else {
      assert (s + [r])[1..] == s[1..] + [r];
      StepsNext(st.Step(s[0]), s[1..], r);
    }
  }

  lemma {:induction false} GlueNext(words: seq<string>, w: string)
    ensures Glue(words + [w]) == Glue(words) + w
  {
    if words == [] {
      assert [w][1..] == [];
    } else {
      assert (words + [w])[1..] == words[1..] + [w];
      GlueNext(words[1..], w);
    }
  }

  /** The state machine knows, behind every prefix, the escape and the open quote. */
  lemma {:induction false} MachineFollowsRoles(s: string, k: nat)
    requires k <= |s|
    ensures var st, q := Steps(START, s[..k]), OpenQuote(NoQuote, s[..k]);
            && st.escaped == (TrailingBackslashes(s[..k]) % 2 == 1)
            && st.inQuote == q.Open? && (q.Open? ==> st.quoteChar == q.quote)
  {
    hide Steps, OpenQuote;
    if k == 0 {
      RolesAtStart();
    } else {
      var r, t := s[k - 1], s[..k - 1];
      MachineFollowsRoles(s, k - 1);
      assert s[..k] == t + [r];
      StepsNext(START, t, r);
      OpenQuoteNext(NoQuote, t, r);
      assert (t + [r])[..|t|] == t;
    }
  }

  lemma {:induction false} MachineCollectsLiterals(s: string, k: nat)
    requires k <= |s|
    ensures var st := Steps(START, s[..k]); Glue(st.args) + st.current == LiteralRunes(s, k)
  {
    hide Steps, OpenQuote, TrailingBackslashes, Glue;
    if k == 0 {
      RolesAtStart();
    } else {
      var r, st := s[k - 1], Steps(START, s[..k - 1]);
      MachineCollectsLiterals(s, k - 1);
      assert s[..k] == s[..k - 1] + [r];
      StepsNext(START, s[..k - 1], r);
      MachineFollowsRoles(s, k - 1);
      GlueNext(st.args, st.current);
    }
  }

  lemma {:induction false} RolesAtStart()
    ensures Steps(START, "") == START && OpenQuote(NoQuote, "") == NoQuote && Glue([]) == ""
  {
  }

  lemma {:induction false} NoEmptyToken(s: string)
    requires Parse(s).Ok?
    ensures "" !in Parse(s).args
  {
    WordsNonempty("", Plain(s).units);
  }

  /** No token is empty, and the tokens in order hold exactly the runes at literal positions: the input
      without its separators, opening and closing quotes and escaping backslashes. */
  lemma {:induction false} TokensHoldLiterals(s: string)
    requires Parse(s).Ok?
    ensures "" !in Parse(s).args
    ensures Glue(Parse(s).args) == LiteralRunes(s, |s|)
  {
    hide Steps, Parse, Glue, LiteralRunes;
    NoEmptyToken(s);
    assert s[..|s|] == s;
    MachineCollectsLiterals(s, |s|);
    MachineMeetsGrammar(s);
    GlueNext(Steps(START, s).args, Steps(START, s).current);
  }

  // ----- inputs can be joined by a blank -----

  function Onto(us: seq<Unit>, lex: LexResult): LexResult {
    match lex
    case Units(vs) => Units(us + vs)
    case LexErr(_) => lex
  }

  lemma {:induction false} OntoAfter(u: Unit, us: seq<Unit>, lex: LexResult)
    ensures Onto(us, lex).After(u) == Onto([u] + us, lex)
  {
    if lex.Units? {
      assert [u] + (us + lex.units) == ([u] + us) + lex.units;
    }
  }

  lemma {:induction false} LexAppend(q: Quoting, a: string, b: string)
    ensures q.NoQuote? && Plain(a).Units? ==> Plain(a + b) == Onto(Plain(a).units, Plain(b))
    ensures q.Open? && Quoted(a, q.quote).Units? ==> Quoted(a + b, q.quote) == Onto(Quoted(a, q.quote).units, Plain(b))
    decreases |a|
  {
    if a == "" {
      assert a + b == b;
      if Plain(b).Units? {
        assert [] + Plain(b).units == Plain(b).units;
      }
    } else {
      var k := if a[0] == '\\' then 2 else 1;
      if |a| >= k {
        assert (a + b)[k..] == a[k..] + b;
        var q' := if a[0] == '\\' then q
                  else if q == NoQuote then (if IsQuote(a[0]) then Open(a[0]) else NoQuote)
                  else if q == Open(a[0]) then NoQuote else q;
        LexAppend(q', a[k..], b);
        var lex := if q'.NoQuote? then Plain(a[k..]) else Quoted(a[k..], q'.quote);
        if lex.Units? {
          OntoAfter(Lit(a[k - 1]), lex.units, Plain(b));
          OntoAfter(Blank, lex.units, Plain(b));
        }
      }
    }
  }

  lemma {:induction false} WordsAppend(open: string, us: seq<Unit>, vs: seq<Unit>)
    ensures Words(open, us + ([Blank] + vs)) == Words(open, us) + Words("", vs)
    decreases us
  {
    var all := us + ([Blank] + vs);
    if us == [] {
      assert all == [Blank] + vs && all[1..] == vs;
    } else {
      assert all[1..] == us[1..] + ([Blank] + vs);
      match us[0]
      case Lit(r) => WordsAppend(open + [r], us[1..], vs);
      case Blank => WordsAppend("", us[1..], vs);
    }
  }

  function Joined(args: seq<string>, res: ParseResult): ParseResult {
    match res
    case Ok(more) => Ok(args + more)
    case Err(_) => res
  }

  /** Behind an accepted input and a blank, the rest is parsed on its own: its tokens follow, and it
      is refused for its own reason only. */
  lemma {:induction false} ParseJoins(a: string, blank: char, b: string)
    requires Parse(a).Ok? && IsBlank(blank)
    ensures Parse(a + ([blank] + b)) == Joined(Parse(a).args, Parse(b))
  {
    hide Words;
    var rest := [blank] + b;
    LexAppend(NoQuote, a, rest);
    assert rest[1..] == b;
    assert Plain(rest) == Plain(b).After(Blank);
    if Plain(b).Units? {
      WordsAppend("", Plain(a).units, Plain(b).units);
    }
  }

  // ----- round trip -----

  /** Every rune escaped by a backslash. */
  function EscapeRunes(t: string): string {
    if t == "" then "" else ['\\', t[0]] + EscapeRunes(t[1..])
  }

  /** The tokens, escaped and joined by single spaces. */
  function Quote(ts: seq<string>): string {
    if ts == [] then ""
    else if |ts| == 1 then EscapeRunes(ts[0])
    else EscapeRunes(ts[0]) + ([' '] + Quote(ts[1..]))
  }

  function LitUnits(t: string): seq<Unit> {
    if t == "" then [] else [Lit(t[0])] + LitUnits(t[1..])
  }

  lemma {:induction false} EscapedIsLiteral(open: string, t: string)
    ensures Plain(EscapeRunes(t)) == Units(LitUnits(t))
    ensures Words(open, LitUnits(t)) == Nonempty(open + t)
    decreases |t|
  {
    if t == "" {
      assert open + t == open;
    } else {
      var e := EscapeRunes(t);
      assert e[2..] == EscapeRunes(t[1..]) && e[1] == t[0];
      EscapedIsLiteral(open + [t[0]], t[1..]);
      assert LitUnits(t)[1..] == LitUnits(t[1..]);
      assert open + [t[0]] + t[1..] == open + t;
    }
  }

  lemma {:induction false} EscapedWord(t: string)
    requires t != ""
    ensures Parse(EscapeRunes(t)) == Ok([t])
  {
    hide Words, Plain;
    EscapedIsLiteral("", t);
    assert "" + t == t;
  }

  lemma {:induction false} ParseNothing()
    ensures Parse("") == Ok([])
  {
  }

  lemma {:induction false} QuoteFirst(ts: seq<string>)
    ensures ts == [] ==> Quote(ts) == ""
    ensures |ts| == 1 ==> Quote(ts) == EscapeRunes(ts[0])
    ensures |ts| > 1 ==> Quote(ts) == EscapeRunes(ts[0]) + ([' '] + Quote(ts[1..]))
  {
  }

  /** Quoting is inverted by parsing, on every list of non-empty tokens. */
  lemma {:induction false} ParseQuote(ts: seq<string>)
    requires "" !in ts
    ensures Parse(Quote(ts)) == Ok(ts)
  {
    hide Parse, EscapeRunes, Quote;
    QuoteFirst(ts);
    if ts == [] {
      ParseNothing();
    } else {
      EscapedWord(ts[0]);
      if |ts| == 1 {
        assert ts == [ts[0]];
      } else {
        ParseQuote(ts[1..]);
        ParseJoins(EscapeRunes(ts[0]), ' ', Quote(ts[1..]));
        assert [ts[0]] + ts[1..] == ts;
      }
    }
  }

  // ----- which runes are special -----

  /** A rune that stands for itself wherever no quote is open. */
  predicate IsBareRune(r: char) {
    r != ' ' && r != '\t' && r != '\'' && r != '"' && r != '\\'
  }

  predicate IsBareWord(w: string) {
    w != "" && forall i :: 0 <= i < |w| ==> IsBareRune(w[i])
  }

  lemma {:induction false} BareUnits(w: string)
    requires forall i :: 0 <= i < |w| ==> IsBareRune(w[i])
    ensures Plain(w) == Units(LitUnits(w))
  {
    if w != "" {
      BareUnits(w[1..]);
    }
  }

  lemma {:induction false} BareWord(w: string)
    requires IsBareWord(w)
    ensures Parse(w) == Ok([w])
  {
    BareUnits(w);
    EscapedIsLiteral("", w);
    assert "" + w == w;
  }

  lemma {:induction false} BlankWords()
    ensures Words("", [Blank]) == []
  {
    assert [Blank][1..] == [];
  }

  /** A rune alone is a token exactly when it is not a space, a tab, a quote of either kind or a
      backslash; a newline is one. */
  lemma {:induction false} RuneAlone(r: char)
    ensures Parse([r]) == Ok([[r]]) <==> r != ' ' && r != '\t' && r != '\'' && r != '"' && r != '\\'
    ensures r == ' ' || r == '\t' ==> Parse([r]) == Ok([])
    ensures r == '\'' || r == '"' ==> Parse([r]) == Err(UnterminatedQuote(r))
    ensures r == '\\' ==> Parse([r]) == Err(TrailingBackslash)
  {
    hide Words, Quoted;
    assert [r][1..] == "";
    ParseNothing();
    if IsBareRune(r) {
      BareWord([r]);
    } else if r == '\'' || r == '"' {
      QuotedUnits("", r);
    } else if r != '\\' {
      assert Plain("") == Units([]) && Plain([r]) == Units([Blank]);
      BlankWords();
    }
  }

  /** A space or a tab separates two words that hold nothing special. */
  lemma {:induction false} WordsSeparated(v: string, w: string)
    requires IsBareWord(v) && IsBareWord(w)
    ensures Parse(v + " " + w) == Ok([v, w]) && Parse(v + "\t" + w) == Ok([v, w])
  {
    hide Parse, IsBareWord;
    BareWord(v);
    BareWord(w);
    ParseJoins(v, ' ', w);
    ParseJoins(v, '\t', w);
    assert v + " " + w == v + ([' '] + w) && v + "\t" + w == v + (['\t'] + w) && [v] + [w] == [v, w];
  }

  lemma {:induction false} QuotedUnits(w: string, quote: char)
    requires forall i :: 0 <= i < |w| ==> w[i] != quote && w[i] != '\\'
    ensures quote != '\\' ==> Quoted(w + [quote], quote) == Units(LitUnits(w))
    ensures Quoted(w, quote) == LexErr(UnterminatedQuote(quote))
  {
    if w == "" {
      assert w + [quote] == [quote] && [quote][1..] == "";
    } else {
      assert (w + [quote])[1..] == w[1..] + [quote];
      QuotedUnits(w[1..], quote);
    }
  }

  lemma {:induction false} QuotedWhole(w: string, quote: char)
    requires quote == '\'' || quote == '"'
    requires forall i :: 0 <= i < |w| ==> w[i] != quote && w[i] != '\\'
    ensures Parse([quote] + w + [quote]) == Ok(Nonempty(w))
    ensures Parse([quote] + w) == Err(UnterminatedQuote(quote))
  {
    hide Quoted, Words;
    var s := [quote] + w + [quote];
    assert s[1..] == w + [quote] && ([quote] + w)[1..] == w;
    QuotedUnits(w, quote);
    EscapedIsLiteral("", w);
    assert "" + w == w;
  }

  /** Single quotes make everything between them one token, blanks and double quotes included; left
      open, they are named in the refusal. */
  lemma {:induction false} SingleQuoted(w: string)
    requires '\'' !in w && '\\' !in w
    ensures Parse("'" + w + "'") == Ok(if w == "" then [] else [w])
    ensures Parse("'" + w) == Err(UnterminatedQuote('\''))
  {
    QuotedWhole(w, '\'');
  }

  /** Double quotes do the same, single quotes included. */
  lemma {:induction false} DoubleQuoted(w: string)
    requires '"' !in w && '\\' !in w
    ensures Parse("\"" + w + "\"") == Ok(if w == "" then [] else [w])
    ensures Parse("\"" + w) == Err(UnterminatedQuote('"'))
  {
    QuotedWhole(w, '"');
  }

  /** Quotes may open and close inside a word: the parts form one token. */
  lemma {:induction false} QuotesInsideWord(v: string, w: string, x: string)
    requires IsBareWord(v) && IsBareWord(x) && '\'' !in w && '\\' !in w
    ensures Parse(v + "'" + w + "'" + x) == Ok([v + w + x])
  {
    var rest := "'" + w + "'" + x;
    assert v + "'" + w + "'" + x == v + rest;
    assert rest[1..] == (w + "'") + x;
    QuotedUnits(w, '\'');
    BareUnits(v);
    BareUnits(x);
    LexAppend(Open('\''), w + "'", x);
    LexAppend(NoQuote, v, rest);
    var us := LitUnits(v) + (LitUnits(w) + LitUnits(x));
    assert Plain(v + rest) == Units(us);
    LitUnitsAppend(w, x);
    LitUnitsAppend(v, w + x);
    EscapedIsLiteral("", v + (w + x));
    assert "" + (v + (w + x)) == v + w + x;
  }

  lemma {:induction false} LitUnitsAppend(a: string, b: string)
    ensures LitUnits(a + b) == LitUnits(a) + LitUnits(b)
  {
    if a == "" {
      assert a + b == b;
    } else {
      assert (a + b)[1..] == a[1..] + b;
      LitUnitsAppend(a[1..], b);
    }
  }

  /** Every accepted input has a canonical spelling with the same tokens. */
  lemma {:induction false} Requote(s: string)
    requires Parse(s).Ok?
    ensures Parse(Quote(Parse(s).args)) == Parse(s)
  {
    NoEmptyToken(s);
    ParseQuote(Parse(s).args);
  }
}
