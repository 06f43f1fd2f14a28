/** Cutting a byte stream into newline-terminated lines and an unterminated tail. */
module Lines {
  import opened Utf8

  /** There is no newline from position `i` up to `j`. */
  predicate NoNewline(s: seq<byte>, i: nat, j: nat)
    requires i <= j <= |s|
  {
    forall k :: i <= k < j ==> s[k] != NEWLINE
  }

  /** `bytes.IndexByte(s, '\n')`, or the length when there is no newline. */
  function LineEnd(s: seq<byte>): (i: nat)
    ensures i <= |s| && NoNewline(s, 0, i) && (i < |s| ==> s[i] == NEWLINE)
  {
    if s == [] || s[0] == NEWLINE then 0
    else
      var i := LineEnd(s[1..]);
      assert forall k :: 0 < k <= i ==> s[k] == s[1..][k - 1];
      i + 1
  }

  /** The complete lines of a stream, each with its newline. */
  function Complete(s: seq<byte>): (ls: seq<seq<byte>>) {
    var i := LineEnd(s);
    if i == |s| then [] else [s[..i + 1]] + Complete(s[i + 1..])
  }

  /** What follows the last newline of a stream. */
  function Tail(s: seq<byte>): (t: seq<byte>) {
    var i := LineEnd(s);
    if i == |s| then s else Tail(s[i + 1..])
  }

  function Concat(ls: seq<seq<byte>>): seq<byte> {
    if ls == [] then [] else ls[0] + Concat(ls[1..])
  }

  /** Every newline-free run of the stream has at most `max` bytes. */
  ghost predicate ShortRuns(s: seq<byte>, max: nat) {
    forall i: nat, j: nat :: i <= j <= |s| && NoNewline(s, i, j) ==> j - i <= max
  }

  lemma {:induction false} ConcatAppend(a: seq<seq<byte>>, b: seq<seq<byte>>)
    ensures Concat(a + b) == Concat(a) + Concat(b)
  {
    if a == [] {
      assert a + b == b;
    } else {
      assert (a + b)[1..] == a[1..] + b;
      ConcatAppend(a[1..], b);
    }
  }

  lemma {:induction false} ConcatOne(l: seq<byte>)
    ensures Concat([l]) == l
  {
    assert [l][1..] == [];
  }

  /** One unfolding of the two functions, for proofs that hide their recursion. */
  lemma {:induction false} Unfold(s: seq<byte>)
    ensures LineEnd(s) == |s| ==> Complete(s) == [] && Tail(s) == s
    ensures LineEnd(s) < |s| ==> Complete(s) == [s[..LineEnd(s) + 1]] + Complete(s[LineEnd(s) + 1..])
    ensures LineEnd(s) < |s| ==> Tail(s) == Tail(s[LineEnd(s) + 1..])
  {
  }

  /** The lines and the tail are a partition of the stream. */
  lemma {:induction false} LinesPartition(s: seq<byte>)
    ensures Concat(Complete(s)) + Tail(s) == s
  {
    hide LineEnd, Complete, Tail;
    Unfold(s);
    var i := LineEnd(s);
    if i < |s| {
      LinesPartition(s[i + 1..]);
      assert Complete(s)[1..] == Complete(s[i + 1..]);
      assert s == s[..i + 1] + s[i + 1..];
    }
  }

  /** A line: it ends in its only newline. */
  predicate IsLine(l: seq<byte>) {
    l != [] && l[|l| - 1] == NEWLINE && NoNewline(l, 0, |l| - 1)
  }

  lemma {:induction false} CompleteAreLines(s: seq<byte>)
    ensures forall k :: 0 <= k < |Complete(s)| ==> IsLine(Complete(s)[k])
  {
    hide LineEnd;
    var i := LineEnd(s);
    if i < |s| {
      CompleteAreLines(s[i + 1..]);
      assert IsLine(s[..i + 1]);
    }
  }

  /** Reading on from the tail gives the lines that reading everything at once gives. */
  lemma {:induction false} LinesAppend(a: seq<byte>, b: seq<byte>)
    ensures Complete(a + b) == Complete(a) + Complete(Tail(a) + b)
    ensures Tail(a + b) == Tail(Tail(a) + b)
    decreases |a|
  {
    hide LineEnd, Complete, Tail;
    Unfold(a);
    Unfold(a + b);
    var i := LineEnd(a);
    if i < |a| {
      var s := a + b;
      assert s[i] == NEWLINE && forall k :: 0 <= k < i ==> s[k] == a[k];
      assert LineEnd(s) == i;
      assert s[..i + 1] == a[..i + 1];
      assert s[i + 1..] == a[i + 1..] + b;
      LinesAppend(a[i + 1..], b);
    } else {
      assert Complete(a) + Complete(a + b) == Complete(a + b);
    }
  }

  /** The tail is the longest newline-free suffix. */
  lemma {:induction false} TailIsLongest(s: seq<byte>)
    ensures var n := |Tail(s)|;
            n <= |s| && Tail(s) == s[|s| - n..] && NoNewline(s, |s| - n, |s|) && (n < |s| ==> s[|s| - n - 1] == NEWLINE)
  {
    hide LineEnd, Tail, Complete;
    Unfold(s);
    var i := LineEnd(s);
    if i < |s| {
      var r := s[i + 1..];
      TailIsLongest(r);
      assert forall k :: 0 <= k < |r| ==> r[k] == s[i + 1 + k];
      assert r[|r| - |Tail(r)|..] == s[|s| - |Tail(r)|..];
      assert forall k :: |s| - |Tail(s)| <= k < |s| ==> s[k] == r[k - (i + 1)];
    }
  }

  lemma {:induction false} TailCovers(s: seq<byte>, i: nat)
    requires i <= |s| && NoNewline(s, i, |s|)
    ensures |Tail(s)| >= |s| - i
  {
    hide Tail;
    TailIsLongest(s);
  }

  lemma {:induction false} TailOfShortRuns(s: seq<byte>, n: nat, max: nat)
    requires ShortRuns(s, max) && n <= |s|
    ensures |Tail(s[..n])| <= max
  {
    hide Tail;
    var t := Tail(s[..n]);
    TailIsLongest(s[..n]);
    assert forall k :: n - |t| <= k < n ==> s[k] == s[..n][k];
    assert NoNewline(s, n - |t|, n);
  }
}
