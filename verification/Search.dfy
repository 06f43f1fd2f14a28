/** Substring search as the Go standard library's `strings` and `bytes` packages promise it,
    generic in the element so that it serves byte strings and rune strings alike. */
module Search {

  predicate HasPrefix<T(==)>(s: seq<T>, pat: seq<T>) {
    pat <= s
  }

  predicate OccursAt<T(==)>(s: seq<T>, pat: seq<T>, i: nat) {
    i + |pat| <= |s| && s[i..i + |pat|] == pat
  }

  /** The first position at or after `from` where `pat` occurs, or -1. */
  function IndexFrom<T(==)>(s: seq<T>, pat: seq<T>, from: nat): (i: int)
    requires from <= |s|
    ensures i == -1 || (from <= i && OccursAt(s, pat, i))
    ensures forall k: nat :: from <= k && OccursAt(s, pat, k) ==> 0 <= i <= k
    decreases |s| - from
  {
    if OccursAt(s, pat, from) then from
    else if from == |s| then -1
    else IndexFrom(s, pat, from + 1)
  }

  /** `strings.Index`: the first occurrence of `pat` in `s`, or -1. */
  function Index<T(==)>(s: seq<T>, pat: seq<T>): (i: int)
    ensures i == -1 || (0 <= i && OccursAt(s, pat, i))
    ensures forall k: nat :: OccursAt(s, pat, k) ==> 0 <= i <= k
  {
    IndexFrom(s, pat, 0)
  }

  predicate Contains<T(==)>(s: seq<T>, pat: seq<T>) {
    Index(s, pat) != -1
  }

  /** The result of `strings.Cut`: the text around the first separator, if there is one. */
  datatype CutResult<T> = NotFound | Found(before: seq<T>, after: seq<T>)

  function Cut<T(==)>(s: seq<T>, sep: seq<T>): CutResult<T> {
    var i := Index(s, sep);
    if i == -1 then NotFound else Found(s[..i], s[i + |sep|..])
  }

  /** No proper suffix of `pat` can start a second occurrence: its first element is unique. */
  predicate NoSelfOverlap<T(==)>(pat: seq<T>) {
    |pat| > 0 && forall k :: 0 < k < |pat| ==> pat[k] != pat[0]
  }

  /** When the text ahead of a self-overlap-free pattern does not hold it, the pattern is found
      exactly there, whatever follows: no later text can move a first occurrence forward. */
  lemma {:induction false} FirstOccurrence<T>(ahead: seq<T>, pat: seq<T>, rest: seq<T>)
    requires NoSelfOverlap(pat)
    requires !Contains(ahead, pat)
    ensures Index(ahead + pat + rest, pat) == |ahead|
    ensures Cut(ahead + pat + rest, pat) == Found(ahead, rest)
  {
    var s := ahead + pat + rest;
    assert OccursAt(s, pat, |ahead|);
    forall k: nat | k < |ahead| ensures !OccursAt(s, pat, k) {
      if k + |pat| <= |ahead| {
        assert s[k..k + |pat|] == ahead[k..k + |pat|];
        assert !OccursAt(ahead, pat, k);
      } else if k + |pat| <= |s| {
        assert s[k..k + |pat|][|ahead| - k] == s[|ahead|] == pat[0];
      }
    }
  }

  /** A pattern that fits inside a part of a text occurs in the whole text. */
  lemma {:induction false} ContainsInside<T>(a: seq<T>, mid: seq<T>, b: seq<T>, pat: seq<T>)
    requires Contains(mid, pat)
    ensures Contains(a + mid + b, pat)
  {
    var i := Index(mid, pat);
    var s := a + mid + b;
    assert s[|a| + i..|a| + i + |pat|] == mid[i..i + |pat|];
    assert OccursAt(s, pat, |a| + i);
  }
}
