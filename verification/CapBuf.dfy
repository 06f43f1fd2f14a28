/** The capped capture buffer: bytes above the cap are counted but not stored. */
module CapBuf {
  import opened Lines
  import opened Sanitize
  import opened Utf8

  function Min(a: int, b: int): int {
    if a < b then a else b
  }

  function Max(a: int, b: int): int {
    if a < b then b else a
  }

  /** What is stored, and how much was written. */
  datatype Capture = Capture(stored: seq<byte>, total: int) {
    function Write(cap: int, p: seq<byte>): Capture {
      Capture(stored + p[..Min(|p|, Max(0, cap - |stored|))], total + |p|)
    }

    predicate Truncated(cap: int) {
      total > cap
    }
  }

  /** A new buffer after any run of writes. */
  function Writes(cap: int, chunks: seq<seq<byte>>): Capture {
    if chunks == [] then Capture([], 0) else Writes(cap, chunks[..|chunks| - 1]).Write(cap, chunks[|chunks| - 1])
  }

  class Buffer {
    const cap: int
    var buf: seq<byte>
    var totalIn: int

    ghost function Value(): Capture
      reads this
    {
      Capture(buf, totalIn)
    }

    constructor (cap: int)
      ensures this.cap == cap && Value() == Writes(cap, [])
    {
      this.cap := cap;
      buf := [];
      totalIn := 0;
    }

    method Write(p: seq<byte>) returns (n: int)
      modifies this
      ensures n == |p| && Value() == old(Value()).Write(cap, p)
      ensures forall chunks :: old(Value()) == Writes(cap, chunks) ==> Value() == Writes(cap, chunks + [p])
    {
      totalIn := totalIn + |p|;
      var room := Max(0, cap - |buf|);
      buf := buf + p[..Min(|p|, room)];
      forall chunks ensures Writes(cap, chunks + [p]) == Writes(cap, chunks).Write(cap, p) {
        assert (chunks + [p])[..|chunks|] == chunks;
      }
      return |p|;
    }

    function String(): (s: seq<byte>)
      reads this
      ensures s == Value().stored
    {
      buf
    }

    function Total(): (n: int)
      reads this
      ensures n == Value().total
    {
      totalIn
    }

    predicate Truncated(): (t: bool)
      reads this
      ensures t <==> Value().Truncated(cap)
    {
      totalIn > cap
    }
  }

  /** Any run of writes stores exactly the first bytes of everything written, up to the cap, and
      counts all of it. */
  lemma {:induction false} StoredIsPrefix(cap: int, chunks: seq<seq<byte>>)
    ensures Writes(cap, chunks) == Capture(Concat(chunks)[..Min(|Concat(chunks)|, Max(0, cap))], |Concat(chunks)|)
  {
    if chunks != [] {
      hide Concat;
      var n := |chunks| - 1;
      StoredIsPrefix(cap, chunks[..n]);
      assert chunks == chunks[..n] + [chunks[n]];
      ConcatAppend(chunks[..n], [chunks[n]]);
      ConcatOne(chunks[n]);
    }
  }

  /** Truncated() tells whether bytes were discarded; this is so exactly when the cap is not negative
      or something was written, since a negative cap reads as truncated before any write. */
  lemma {:induction false} TruncatedMeansDiscarded(cap: int, chunks: seq<seq<byte>>)
    ensures var w := Writes(cap, chunks);
            (w.Truncated(cap) <==> w.stored != Concat(chunks)) <==> (cap >= 0 || Concat(chunks) != [])
  {
    hide Concat, Writes;
    StoredIsPrefix(cap, chunks);
  }

  /** The capture's logged form is clean, whatever was captured and even when the cap cuts a
      character, and takes at most four bytes for each byte of the cap. */
  lemma {:induction false} LoggedCaptureClean(unsafe: RunePolicy, cap: nat, chunks: seq<seq<byte>>)
    ensures Clean(unsafe, Escape(unsafe, Writes(cap, chunks).stored))
    ensures |Escape(unsafe, Writes(cap, chunks).stored)| <= 4 * cap
  {
    hide Clean, Concat, Writes;
    StoredIsPrefix(cap, chunks);
    EscapeClean(unsafe, Writes(cap, chunks).stored);
  }
}
