/** The line-filtering writer itself: an object over an underlying sink, updated call by call. Each
    method is tied to the state machine of LineFilter, whose runs carry the guarantees. */
module LineWriter {
  import opened Lines
  import opened NoiseFilter
  import opened Sanitize
  import opened Utf8
  import LineFilter

  /** The wrapped io.Writer. Its answers follow an arbitrary script. */
  class Output {
    const script: LineFilter.Script
    var state: LineFilter.Sink

    constructor (script: LineFilter.Script)
      ensures this.script == script && state == LineFilter.Sink([], [])
    {
      this.script := script;
      state := LineFilter.Sink([], []);
    }

    method Write(p: seq<byte>) returns (ok: bool)
      modifies this
      ensures state == old(state).Put(script, p) && ok == old(state).Accepted(script)
    {
      ok := state.Accepted(script);
      state := state.Put(script, p);
    }
  }

  class Writer {
    const unsafe: RunePolicy
    const w: Output
    var buf: seq<byte>
    var floods: nat
    ghost var pieces: seq<seq<byte>>

    /** The state machine's view of the object. */
    ghost function State(): LineFilter.Filter
      reads this, w
    {
      LineFilter.Filter(buf, floods, w.state, pieces)
    }

    constructor (unsafe: RunePolicy, w: Output)
      requires w.state == LineFilter.Sink([], [])
      ensures this.unsafe == unsafe && this.w == w
      ensures State() == LineFilter.EMPTY
    {
      this.unsafe := unsafe;
      this.w := w;
      buf := [];
      floods := 0;
      pieces := [];
    }

    method Emit(line: seq<byte>) returns (ok: bool)
      modifies this`pieces, w
      ensures (State(), ok) == LineFilter.Emit(unsafe, w.script, old(State()), line)
    {
      pieces := pieces + [line];
      if ShouldFilterLine(line) {
        return true;
      }
      var clean := SanitizeControlBytes(unsafe, line);
      ok := w.Write(clean);
    }

    /** The length reported is always the whole input's, as an io.Writer that consumed it must. */
    method Write(p: seq<byte>) returns (n: nat, ok: bool)
      modifies this, w
      ensures n == |p|
      ensures (State(), ok) == LineFilter.Write(unsafe, w.script, old(State()), p)
    {
      hide LineEnd, ShouldFilterLine, Escape;
      var rest := buf + p;
      buf := [];
      ghost var start := rest;
      while true
        invariant buf == []
        invariant LineFilter.Split(unsafe, w.script, State(), rest)
                  == LineFilter.Split(unsafe, w.script, old(State()).(buf := []), start)
        decreases |rest|
      {
        var idx := LineEnd(rest);
        if idx == |rest| {
          buf := rest;
          if |buf| > LineFilter.MAX_LINE_BYTES {
            floods := floods + 1;
            var emitted := Emit(buf);
            buf := [];
            if !emitted {
              return |p|, false;
            }
          }
          break;
        }
        var line := rest[..idx + 1];
        var emitted := Emit(line);
        if !emitted {
          return |p|, false;
        }
        rest := rest[idx + 1..];
      }
      return |p|, true;
    }

    method Flush() returns (ok: bool)
      modifies this, w
      ensures (State(), ok) == LineFilter.Flush(unsafe, w.script, old(State()))
    {
      if |buf| == 0 {
        return true;
      }
      var line := buf;
      buf := [];
      ok := Emit(line);
    }

    method Floods() returns (n: nat)
      ensures n == State().floods
    {
      return floods;
    }
  }
}
