/** The line-filtering writer as a pure state machine: what Write and Flush do to the held partial
    line, the flood count and the sink, and what every run of them guarantees. */
module LineFilter {
  import opened Lines
  import opened NoiseFilter
  import opened Sanitize
  import opened Utf8

  const MAX_LINE_BYTES: nat := 0x10_0000

  /** What the underlying io.Writer answers to one write: it takes everything, or it takes a part
      and reports an error. */
  datatype Reply = Accepts | Fails(taken: nat)

  /** The answers of a sink, by the number of the write. */
  type Script = nat -> Reply

  ghost predicate NeverFails(script: Script) {
    forall k :: script(k) == Accepts
  }

  datatype Sink = Sink(writes: seq<seq<byte>>, content: seq<byte>) {
    function Put(script: Script, p: seq<byte>): Sink {
      match script(|writes|)
      case Accepts => Sink(writes + [p], content + p)
      case Fails(taken) => Sink(writes + [p], content + p[..if taken < |p| then taken else |p|])
    }

    function Accepted(script: Script): bool {
      script(|writes|).Accepts?
    }
  }

  /** `pieces` is the history of what was passed to emit, noise included. */
  datatype Filter = Filter(buf: seq<byte>, floods: nat, sink: Sink, pieces: seq<seq<byte>>)

  const EMPTY: Filter := Filter([], 0, Sink([], []), [])

  /** What one piece contributes to the output. */
  function Render(unsafe: RunePolicy, piece: seq<byte>): seq<byte> {
    if ShouldFilterLine(piece) then [] else Escape(unsafe, piece)
  }

  function RenderAll(unsafe: RunePolicy, pieces: seq<seq<byte>>): seq<byte> {
    if pieces == [] then []
    else RenderAll(unsafe, pieces[..|pieces| - 1]) + Render(unsafe, pieces[|pieces| - 1])
  }

  function Emit(unsafe: RunePolicy, script: Script, st: Filter, line: seq<byte>): (Filter, bool) {
    var logged := st.(pieces := st.pieces + [line]);
    if ShouldFilterLine(line) then (logged, true)
    else (logged.(sink := st.sink.Put(script, Escape(unsafe, line))), st.sink.Accepted(script))
  }

  /** The loop of Write over the bytes still to be split, with nothing held. */
  function Split(unsafe: RunePolicy, script: Script, st: Filter, t: seq<byte>): (Filter, bool)
    decreases |t|
  {
    var i := LineEnd(t);
    if i == |t| then
      if |t| > MAX_LINE_BYTES then Emit(unsafe, script, st.(floods := st.floods + 1), t)
      else (st.(buf := t), true)
    else
      var (st1, ok) := Emit(unsafe, script, st, t[..i + 1]);
      if ok then Split(unsafe, script, st1, t[i + 1..]) else (st1, false)
  }

  function Write(unsafe: RunePolicy, script: Script, st: Filter, p: seq<byte>): (Filter, bool) {
    Split(unsafe, script, st.(buf := []), st.buf + p)
  }

  function Flush(unsafe: RunePolicy, script: Script, st: Filter): (Filter, bool) {
    if st.buf == [] then (st, true) else Emit(unsafe, script, st.(buf := []), st.buf)
  }

  datatype Op = DoWrite(p: seq<byte>) | DoFlush

  function Apply(unsafe: RunePolicy, script: Script, st: Filter, op: Op): Filter {
    match op
    case DoWrite(p) => Write(unsafe, script, st, p).0
    case DoFlush => Flush(unsafe, script, st).0
  }

  /** A run of calls from a new writer; a caller may go on after an error. */
  function Run(unsafe: RunePolicy, script: Script, ops: seq<Op>): Filter {
    if ops == [] then EMPTY
    else Apply(unsafe, script, Run(unsafe, script, ops[..|ops| - 1]), ops[|ops| - 1])
  }

  function OpInput(op: Op): seq<byte> {
    match op
    case DoWrite(p) => p
    case DoFlush => []
  }

  /** The bytes written over a run of calls. */
  function Input(ops: seq<Op>): seq<byte> {
    if ops == [] then [] else Input(ops[..|ops| - 1]) + OpInput(ops[|ops| - 1])
  }

  // ----- every run, failing sinks included -----

  ghost predicate WritesClean(unsafe: RunePolicy, sink: Sink) {
    forall k :: 0 <= k < |sink.writes| ==> Clean(unsafe, sink.writes[k])
  }

  /** The held line is short and newline-free, floods are paid for by input, and every text handed
      to the sink is clean. */
  ghost predicate Valid(unsafe: RunePolicy, st: Filter, total: nat) {
    && NoNewline(st.buf, 0, |st.buf|)
    && |st.buf| <= MAX_LINE_BYTES
    && st.floods * (MAX_LINE_BYTES + 1) + |st.buf| <= total
    && WritesClean(unsafe, st.sink)
  }

  lemma {:induction false} EmitKeepsClean(unsafe: RunePolicy, script: Script, st: Filter, line: seq<byte>)
    requires WritesClean(unsafe, st.sink)
    ensures WritesClean(unsafe, Emit(unsafe, script, st, line).0.sink)
    ensures Emit(unsafe, script, st, line).0.buf == st.buf && Emit(unsafe, script, st, line).0.floods == st.floods
  {
    hide ShouldFilterLine, Escape, Clean;
    EscapeClean(unsafe, line);
  }

  lemma {:induction false} SplitKeepsValid(unsafe: RunePolicy, script: Script, st: Filter, t: seq<byte>, total: nat)
    requires Valid(unsafe, st, total) && st.buf == []
    ensures Valid(unsafe, Split(unsafe, script, st, t).0, total + |t|)
    decreases |t|
  {
    hide Emit, WritesClean, LineEnd;
    var i := LineEnd(t);
    if i < |t| {
      EmitKeepsClean(unsafe, script, st, t[..i + 1]);
      var (st1, ok) := Emit(unsafe, script, st, t[..i + 1]);
      if ok {
        SplitKeepsValid(unsafe, script, st1, t[i + 1..], total + i + 1);
      }
    } else if |t| > MAX_LINE_BYTES {
      EmitKeepsClean(unsafe, script, st.(floods := st.floods + 1), t);
    }
  }

  lemma {:induction false} ApplyKeepsValid(unsafe: RunePolicy, script: Script, st: Filter, op: Op, total: nat)
    requires Valid(unsafe, st, total)
    ensures Valid(unsafe, Apply(unsafe, script, st, op), total + |OpInput(op)|)
  {
    hide Split, Emit, WritesClean;
    match op
    case DoWrite(p) =>
      SplitKeepsValid(unsafe, script, st.(buf := []), st.buf + p, total - |st.buf|);
    case DoFlush =>
      EmitKeepsClean(unsafe, script, st.(buf := []), st.buf);
  }

  /** Whatever the calls and whatever the sink answers, the writer's bounds hold and nothing unclean
      is ever handed on, even when a flood cuts a character in half. */
  lemma {:induction false} RunsStayValid(unsafe: RunePolicy, script: Script, ops: seq<Op>)
    ensures Valid(unsafe, Run(unsafe, script, ops), |Input(ops)|)
  {
    hide Apply;
    if ops != [] {
      var n := |ops| - 1;
      RunsStayValid(unsafe, script, ops[..n]);
      ApplyKeepsValid(unsafe, script, Run(unsafe, script, ops[..n]), ops[n], |Input(ops[..n])|);
    }
  }

  // ----- runs over a sink that never fails -----

  /** The pieces one Write cuts off: the complete lines, and a tail too long to hold. */
  function Cuts(t: seq<byte>): seq<seq<byte>> {
    Complete(t) + if |Tail(t)| > MAX_LINE_BYTES then [Tail(t)] else []
  }

  /** Between two states of one Write the sink was written to without an error, but for the last write
      when the call failed. */
  ghost predicate AcceptedBetween(script: Script, before: Sink, after: Sink, ok: bool) {
    && |before.writes| <= |after.writes|
    && (forall k :: |before.writes| <= k < |after.writes| - (if ok then 0 else 1) ==> script(k).Accepts?)
    && (!ok ==> |before.writes| < |after.writes| && script(|after.writes| - 1).Fails?)
  }

  /** One Write cuts its input into pieces and stops at the first one the sink refuses: it fails
      exactly then, and drops what it has not passed on. */
  lemma {:induction false} WriteStopsAtFailure(unsafe: RunePolicy, script: Script, st: Filter, t: seq<byte>)
    returns (k: nat)
    requires st.buf == []
    ensures var (st1, ok) := Split(unsafe, script, st, t);
            && k <= |Cuts(t)| && st1.pieces == st.pieces + Cuts(t)[..k]
            && AcceptedBetween(script, st.sink, st1.sink, ok)
            && (if ok then k == |Cuts(t)| && st1.buf == (if |Tail(t)| > MAX_LINE_BYTES then [] else Tail(t))
                else k > 0 && st1.buf == [])
    decreases |t|
  {
    hide LineEnd, Complete, Tail, ShouldFilterLine, Escape;
    Unfold(t);
    var i := LineEnd(t);
    if i < |t| {
      var (st1, ok) := Emit(unsafe, script, st, t[..i + 1]);
      assert Cuts(t) == [t[..i + 1]] + Cuts(t[i + 1..]);
      if ok {
        var j := WriteStopsAtFailure(unsafe, script, st1, t[i + 1..]);
        k := j + 1;
        assert Cuts(t)[..k] == [t[..i + 1]] + Cuts(t[i + 1..])[..j];
      } else {
        k := 1;
      }
    } else {
      k := |Cuts(t)|;
      assert Cuts(t) == if |t| > MAX_LINE_BYTES then [t] else [];
    }
  }

  /** Everything passed to emit, with the held line, is the input, and the sink holds exactly the
      rendering of what was passed to emit. */
  ghost predicate Accounted(unsafe: RunePolicy, st: Filter, input: seq<byte>) {
    Concat(st.pieces) + st.buf == input && st.sink.content == RenderAll(unsafe, st.pieces)
  }

  lemma {:induction false} EmitRenders(unsafe: RunePolicy, script: Script, st: Filter, line: seq<byte>)
    requires NeverFails(script) && st.sink.content == RenderAll(unsafe, st.pieces)
    ensures var (st1, ok) := Emit(unsafe, script, st, line);
            && ok && st1.pieces == st.pieces + [line] && st1.sink.content == RenderAll(unsafe, st1.pieces)
            && st1.buf == st.buf && st1.floods == st.floods
  {
    hide ShouldFilterLine, Escape, RenderAll;
    RenderAppend(unsafe, st.pieces, line);
  }

  lemma {:induction false} RenderAppend(unsafe: RunePolicy, pieces: seq<seq<byte>>, line: seq<byte>)
    ensures RenderAll(unsafe, pieces + [line]) == RenderAll(unsafe, pieces) + Render(unsafe, line)
  {
    hide Render;
    assert (pieces + [line])[..|pieces|] == pieces;
  }

  lemma {:induction false} SplitRenders(unsafe: RunePolicy, script: Script, st: Filter, t: seq<byte>)
    requires NeverFails(script) && st.sink.content == RenderAll(unsafe, st.pieces) && st.buf == []
    ensures var (st1, ok) := Split(unsafe, script, st, t);
            && ok && st1.pieces == st.pieces + Cuts(t) && st1.sink.content == RenderAll(unsafe, st1.pieces)
            && st1.buf == (if |Tail(t)| > MAX_LINE_BYTES then [] else Tail(t))
            && st1.floods == st.floods + (if |Tail(t)| > MAX_LINE_BYTES then 1 else 0)
    decreases |t|
  {
    hide Emit, LineEnd, Complete, Tail, RenderAll;
    Unfold(t);
    var i := LineEnd(t);
    if i < |t| {
      EmitRenders(unsafe, script, st, t[..i + 1]);
      SplitRenders(unsafe, script, Emit(unsafe, script, st, t[..i + 1]).0, t[i + 1..]);
    } else if |t| > MAX_LINE_BYTES {
      EmitRenders(unsafe, script, st.(floods := st.floods + 1), t);
    }
  }

  lemma {:induction false} CutsPartition(t: seq<byte>)
    ensures Concat(Cuts(t)) + (if |Tail(t)| > MAX_LINE_BYTES then [] else Tail(t)) == t
  {
    hide Complete, Tail, Concat;
    LinesPartition(t);
    ConcatAppend(Complete(t), [Tail(t)]);
    ConcatOne(Tail(t));
    assert Complete(t) + [] == Complete(t);
  }

  lemma {:induction false} ApplyAccounts(unsafe: RunePolicy, script: Script, st: Filter, op: Op, input: seq<byte>)
    requires NeverFails(script) && Accounted(unsafe, st, input)
    ensures Accounted(unsafe, Apply(unsafe, script, st, op), input + OpInput(op))
  {
    hide Split, Emit, Concat, RenderAll, Cuts, Tail, Complete;
    match op
    case DoWrite(p) =>
      var t := st.buf + p;
      SplitRenders(unsafe, script, st.(buf := []), t);
      CutsPartition(t);
      ConcatAppend(st.pieces, Cuts(t));
      assert input + p == Concat(st.pieces) + t;
    case DoFlush =>
      if st.buf != [] {
        EmitRenders(unsafe, script, st.(buf := []), st.buf);
        ConcatAppend(st.pieces, [st.buf]);
        ConcatOne(st.buf);
      }
  }

  /** No byte is lost, duplicated or reordered on its way to emit, floods and flushes included, and
      the sink holds the rendering of exactly those pieces, which is clean. */
  lemma {:induction false} RunsAccountForInput(unsafe: RunePolicy, script: Script, ops: seq<Op>)
    requires NeverFails(script)
    ensures Accounted(unsafe, Run(unsafe, script, ops), Input(ops))
    ensures Clean(unsafe, Run(unsafe, script, ops).sink.content)
  {
    hide Apply, Concat, RenderAll, Clean;
    if ops == [] {
      RenderNothing(unsafe);
    } else {
      var n := |ops| - 1;
      RunsAccountForInput(unsafe, script, ops[..n]);
      ApplyAccounts(unsafe, script, Run(unsafe, script, ops[..n]), ops[n], Input(ops[..n]));
    }
    RenderAllClean(unsafe, Run(unsafe, script, ops).pieces);
  }

  lemma {:induction false} RenderNothing(unsafe: RunePolicy)
    ensures RenderAll(unsafe, []) == [] && Concat([]) == [] && Escape(unsafe, []) == []
  {
  }

  lemma {:induction false} RenderAllClean(unsafe: RunePolicy, pieces: seq<seq<byte>>)
    ensures Clean(unsafe, RenderAll(unsafe, pieces))
  {
    hide ShouldFilterLine, Escape;
    if pieces != [] {
      var n := |pieces| - 1;
      RenderAllClean(unsafe, pieces[..n]);
      EscapeClean(unsafe, pieces[n]);
      CleanConcat(unsafe, RenderAll(unsafe, pieces[..n]), Render(unsafe, pieces[n]));
    }
  }

  // ----- chunking is unobservable -----

  function Writes(chunks: seq<seq<byte>>): (ops: seq<Op>)
    ensures |ops| == |chunks|
  {
    seq(|chunks|, i requires 0 <= i < |chunks| => DoWrite(chunks[i]))
  }

  /** The pieces a stream is made of, however it arrives. */
  function AllPieces(s: seq<byte>): seq<seq<byte>> {
    Complete(s) + if Tail(s) == [] then [] else [Tail(s)]
  }

  lemma {:induction false} WritesPrefix(chunks: seq<seq<byte>>)
    requires chunks != []
    ensures var n := |chunks| - 1; Writes(chunks)[..n] == Writes(chunks[..n]) && Writes(chunks)[n] == DoWrite(chunks[n])
    ensures Concat(chunks) == Concat(chunks[..|chunks| - 1]) + chunks[|chunks| - 1]
  {
    hide Concat;
    var n := |chunks| - 1;
    assert chunks == chunks[..n] + [chunks[n]];
    ConcatAppend(chunks[..n], [chunks[n]]);
    ConcatOne(chunks[n]);
  }

  lemma {:induction false} ShortRunsPrefix(a: seq<byte>, b: seq<byte>)
    requires ShortRuns(a + b, MAX_LINE_BYTES)
    ensures ShortRuns(a, MAX_LINE_BYTES)
  {
    forall i: nat, j: nat | i <= j <= |a| && NoNewline(a, i, j) ensures j - i <= MAX_LINE_BYTES {
      assert NoNewline(a + b, i, j);
    }
  }

  lemma {:induction false} WritesSplitStream(unsafe: RunePolicy, script: Script, chunks: seq<seq<byte>>)
    requires NeverFails(script) && ShortRuns(Concat(chunks), MAX_LINE_BYTES)
    ensures var st := Run(unsafe, script, Writes(chunks));
            && st.pieces == Complete(Concat(chunks)) && st.buf == Tail(Concat(chunks))
            && st.floods == 0 && st.sink.content == RenderAll(unsafe, st.pieces)
  {
    hide Split, RenderAll, Complete, Tail, ShortRuns, Concat;
    if chunks == [] {
      RenderNothing(unsafe);
      Unfold([]);
    } else {
      var n := |chunks| - 1;
      var a, b := Concat(chunks[..n]), chunks[n];
      WritesPrefix(chunks);
      ShortRunsPrefix(a, b);
      WritesSplitStream(unsafe, script, chunks[..n]);
      var st := Run(unsafe, script, Writes(chunks[..n]));
      SplitRenders(unsafe, script, st.(buf := []), st.buf + b);
      LinesAppend(a, b);
      TailOfShortRuns(a + b, |a + b|, MAX_LINE_BYTES);
      assert (a + b)[..|a + b|] == a + b;
      assert Complete(Tail(a) + b) + [] == Complete(Tail(a) + b);
    }
  }

  /** However a stream without over-long lines is cut into writes, after Flush the sink holds exactly
      the rendering of the stream's lines, nothing is held back and no flood was counted. */
  lemma {:induction false} ChunkingUnobservable(unsafe: RunePolicy, script: Script, chunks: seq<seq<byte>>)
    requires NeverFails(script) && ShortRuns(Concat(chunks), MAX_LINE_BYTES)
    ensures var st := Run(unsafe, script, Writes(chunks) + [DoFlush]);
            st.sink.content == RenderAll(unsafe, AllPieces(Concat(chunks))) && st.floods == 0 && st.buf == []
  {
    hide Split, Emit, RenderAll, Complete, Tail, ShortRuns;
    var ops := Writes(chunks) + [DoFlush];
    assert ops[..|ops| - 1] == Writes(chunks) && ops[|ops| - 1] == DoFlush;
    WritesSplitStream(unsafe, script, chunks);
    var st := Run(unsafe, script, Writes(chunks));
    assert st.pieces + [] == st.pieces;
    if st.buf != [] {
      EmitRenders(unsafe, script, st.(buf := []), st.buf);
    }
  }

  /** The lines that are no noise, in order. */
  function Kept(ls: seq<seq<byte>>): seq<seq<byte>> {
    if ls == [] then []
    else Kept(ls[..|ls| - 1]) + if ShouldFilterLine(ls[|ls| - 1]) then [] else [ls[|ls| - 1]]
  }

  lemma {:induction false} RenderKept(unsafe: RunePolicy, ls: seq<seq<byte>>)
    requires forall k :: 0 <= k < |ls| - 1 ==> IsLine(ls[k])
    ensures RenderAll(unsafe, ls) == Escape(unsafe, Concat(Kept(ls)))
    ensures ls == [] || IsLine(ls[|ls| - 1]) ==> CutPoint(Concat(Kept(ls)))
  {
    hide ShouldFilterLine, Escape, Concat;
    if ls == [] {
      RenderNothing(unsafe);
      NothingKept();
    } else {
      var n := |ls| - 1;
      var a := Concat(Kept(ls[..n]));
      RenderKept(unsafe, ls[..n]);
      if n == 0 {
        assert ls[..n] == [];
      }
      if ShouldFilterLine(ls[n]) {
        assert Kept(ls) == Kept(ls[..n]) && RenderAll(unsafe, ls) == RenderAll(unsafe, ls[..n]);
      } else {
        assert Kept(ls) == Kept(ls[..n]) + [ls[n]];
        ConcatAppend(Kept(ls[..n]), [ls[n]]);
        ConcatOne(ls[n]);
        EscapeConcat(unsafe, a, ls[n]);
      }
    }
  }

  lemma {:induction false} NothingKept()
    ensures Concat(Kept([])) == []
  {
  }

  /** However a stream without over-long lines is cut into writes, the sink holds after Flush the escape
      of the stream without its noise lines. */
  lemma {:induction false} StreamWithoutNoiseEscaped(unsafe: RunePolicy, script: Script, chunks: seq<seq<byte>>)
    requires NeverFails(script) && ShortRuns(Concat(chunks), 0x10_0000)
    ensures Run(unsafe, script, Writes(chunks) + [DoFlush]).sink.content
            == Escape(unsafe, Concat(Kept(AllPieces(Concat(chunks)))))
  {
    hide Run, RenderAll, Complete, Tail, ShortRuns, Escape, IsLine, Concat, Kept;
    var s := Concat(chunks);
    ChunkingUnobservable(unsafe, script, chunks);
    CompleteAreLines(s);
    RenderKept(unsafe, AllPieces(s));
  }

  lemma {:induction false} AllKept(ls: seq<seq<byte>>)
    requires forall k :: 0 <= k < |ls| ==> !ShouldFilterLine(ls[k])
    ensures Kept(ls) == ls
  {
    hide ShouldFilterLine;
    if ls != [] {
      AllKept(ls[..|ls| - 1]);
    }
  }

  /** When no line is noise, the filter is the escape of the whole stream. */
  lemma {:induction false} QuietStreamIsEscaped(unsafe: RunePolicy, script: Script, chunks: seq<seq<byte>>)
    requires NeverFails(script) && ShortRuns(Concat(chunks), 0x10_0000)
    requires forall k :: 0 <= k < |AllPieces(Concat(chunks))| ==> !ShouldFilterLine(AllPieces(Concat(chunks))[k])
    ensures Run(unsafe, script, Writes(chunks) + [DoFlush]).sink.content == Escape(unsafe, Concat(chunks))
  {
    hide Run, Complete, Tail, ShortRuns, Escape, ShouldFilterLine, Concat, Kept;
    var s := Concat(chunks);
    StreamWithoutNoiseEscaped(unsafe, script, chunks);
    AllKept(AllPieces(s));
    LinesPartition(s);
    ConcatAppend(Complete(s), [Tail(s)]);
    ConcatOne(Tail(s));
    assert Tail(s) == [] ==> AllPieces(s) == Complete(s) && Concat(Complete(s)) == s;
  }

  /** The limit is exact: no way of cutting a stream floods if and only if no line is over-long. */
  lemma {:induction false} FloodFreeExactly(unsafe: RunePolicy, script: Script, s: seq<byte>)
    requires NeverFails(script)
    ensures ShortRuns(s, 0x10_0000) <==>
            (forall chunks: seq<seq<byte>> :: Concat(chunks) == s ==> Run(unsafe, script, Writes(chunks)).floods == 0)
  {
    hide Run, Concat, Tail, Complete, RenderAll;
    if ShortRuns(s, MAX_LINE_BYTES) {
      forall chunks: seq<seq<byte>> | Concat(chunks) == s ensures Run(unsafe, script, Writes(chunks)).floods == 0 {
        WritesSplitStream(unsafe, script, chunks);
      }
    } else {
      var i: nat, j: nat :| i <= j <= |s| && NoNewline(s, i, j) && j - i > MAX_LINE_BYTES;
      var cut := [s[..j], s[j..]];
      CutFloods(unsafe, script, s, i, j);
      assert Concat(cut) == s && Run(unsafe, script, Writes(cut)).floods > 0;
    }
  }

  lemma {:induction false} CutFloods(unsafe: RunePolicy, script: Script, s: seq<byte>, i: nat, j: nat)
    requires NeverFails(script) && i <= j <= |s| && NoNewline(s, i, j) && j - i > MAX_LINE_BYTES
    ensures Concat([s[..j], s[j..]]) == s && Run(unsafe, script, Writes([s[..j], s[j..]])).floods > 0
  {
    hide Split, Tail, Complete, Cuts, RenderAll, Concat;
    var a, b := s[..j], s[j..];
    assert [a] + [b] == [a, b] && a + b == s;
    ConcatAppend([a], [b]);
    ConcatOne(a);
    ConcatOne(b);
    RenderNothing(unsafe);
    TailCovers(a, i);
    var ops, first := Writes([a, b]), [DoWrite(a)];
    assert ops[..1] == first && first[..|first| - 1] == [] && Run(unsafe, script, []) == EMPTY;
    assert EMPTY.buf + a == a && EMPTY.(buf := []) == EMPTY;
    SplitRenders(unsafe, script, EMPTY, a);
    var st := Run(unsafe, script, first);
    assert st == Apply(unsafe, script, EMPTY, DoWrite(a));
    SplitRenders(unsafe, script, st.(buf := []), st.buf + b);
  }
}
