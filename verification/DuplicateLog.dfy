/** The per-pair log of a report: one line for each keeper and duplicate, under a pair cap and a byte
    cap, with a truncation line whenever a pair of the document is missing from the log. */
module DuplicateLog {
  import opened ByteSize
  import opened Report

  const MAX_LOGGED_PAIRS := 500
  const LOG_DETAIL_CAP_BYTES := 64 * 1024

  datatype Pair = Pair(group: int, keeper: FileName, duplicate: FileName, size: string)

  datatype LogLine =
    | DuplicateFile(pair: Pair)
    | ByteCapReached(loggedPairs: int)
    | PairsTruncated(loggedPairs: int, totalPairs: int, loggedGroups: int, totalGroups: int)

  /** The pairs of one group, which is the `number`-th. */
  function GroupPairs(number: int, g: DuplicateGroup): (ps: seq<Pair>)
    ensures |ps| == |g.duplicates|
  {
    seq(|g.duplicates|, i requires 0 <= i < |g.duplicates| => Pair(number, g.keeper, g.duplicates[i], g.sizePerDup))
  }

  /** All pairs of the groups, in order. */
  function Pairs(gs: seq<DuplicateGroup>): seq<Pair> {
    if gs == [] then [] else Pairs(gs[..|gs| - 1]) + GroupPairs(|gs|, gs[|gs| - 1])
  }

  function Cost(p: Pair): nat {
    |p.keeper| + |p.duplicate|
  }

  function Bytes(ps: seq<Pair>): nat {
    if ps == [] then 0 else Bytes(ps[..|ps| - 1]) + Cost(ps[|ps| - 1])
  }

  predicate WithinCaps(ps: seq<Pair>) {
    |ps| <= MAX_LOGGED_PAIRS && Bytes(ps) <= LOG_DETAIL_CAP_BYTES
  }

  /** `k` pairs are logged: they fit both caps, and one pair more would not. */
  predicate IsCut(ps: seq<Pair>, k: nat) {
    k <= |ps| && WithinCaps(ps[..k]) && (k < |ps| ==> !WithinCaps(ps[..k + 1]))
  }

  /** How many pairs the caps let through. */
  function LoggedFrom(ps: seq<Pair>, from: nat): (k: nat)
    requires from <= |ps| && WithinCaps(ps[..from])
    ensures IsCut(ps, k)
    decreases |ps| - from
  {
    if from < |ps| && WithinCaps(ps[..from + 1]) then LoggedFrom(ps, from + 1) else from
  }

  function Logged(ps: seq<Pair>): (k: nat)
    ensures IsCut(ps, k)
  {
    LoggedFrom(ps, 0)
  }

  function Entries(ps: seq<Pair>): seq<LogLine> {
    seq(|ps|, i requires 0 <= i < |ps| => DuplicateFile(ps[i]))
  }

  /** The log when `k` pairs of the report are logged. */
  function LogOf(r: Report, k: nat): seq<LogLine>
    requires k <= |Pairs(r.groups)|
  {
    Entries(Pairs(r.groups)[..k])
    + (if k < |Pairs(r.groups)| && k < MAX_LOGGED_PAIRS then [ByteCapReached(k)] else [])
    + (if k < r.totalDuplicates then [PairsTruncated(k, r.totalDuplicates, |r.groups|, r.totalGroups)] else [])
  }

  lemma {:induction false} BytesNext(ps: seq<Pair>, k: nat)
    requires k < |ps|
    ensures Bytes(ps[..k + 1]) == Bytes(ps[..k]) + Cost(ps[k])
  {
    assert ps[..k + 1][..k] == ps[..k];
  }

  lemma {:induction false} PairsPosition(gs: seq<DuplicateGroup>, i: nat)
    requires i < |gs|
    ensures |Pairs(gs[..i])| + |gs[i].duplicates| <= |Pairs(gs)|
    ensures Pairs(gs[..i + 1]) == Pairs(gs[..i]) + GroupPairs(i + 1, gs[i])
    ensures Pairs(gs[..i + 1]) <= Pairs(gs)
    decreases |gs|
  {
    assert gs[..i + 1][..i] == gs[..i];
    if i + 1 < |gs| {
      var r := gs[..|gs| - 1];
      PairsPosition(r, i);
      assert r[..i] == gs[..i] && r[..i + 1] == gs[..i + 1];
    } else {
      assert gs[..i + 1] == gs;
    }
  }

  /** The nested loops, with one exit for both caps, log a maximal prefix of the flattened pairs. */
  method LogDuplicateGroups(report: Report) returns (log: seq<LogLine>)
    ensures log == LogOf(report, Logged(Pairs(report.groups)))
  {
    hide Pairs, Bytes, LoggedFrom;
    var pairsEmitted := 0;
    var detailBytes := 0;
    log := [];
    ghost var all := Pairs(report.groups);
    NoPairs(report.groups);
    label pairs:
    for i := 0 to |report.groups|
      invariant 0 <= pairsEmitted <= |all| && pairsEmitted == |Pairs(report.groups[..i])|
      invariant log == Entries(all[..pairsEmitted]) && detailBytes == Bytes(all[..pairsEmitted])
      invariant WithinCaps(all[..pairsEmitted])
    {
      var g := report.groups[i];
      PairsPosition(report.groups, i);
      for j := 0 to |g.duplicates|
        invariant 0 <= pairsEmitted <= |all| && pairsEmitted == |Pairs(report.groups[..i])| + j
        invariant log == Entries(all[..pairsEmitted]) && detailBytes == Bytes(all[..pairsEmitted])
        invariant WithinCaps(all[..pairsEmitted])
      {
        if pairsEmitted >= MAX_LOGGED_PAIRS {
          break pairs;
        }
        var dup := g.duplicates[j];
        var pair := Pair(i + 1, g.keeper, dup, g.sizePerDup);
        assert all[pairsEmitted] == Pairs(report.groups[..i + 1])[pairsEmitted] == GroupPairs(i + 1, g)[j] == pair;
        BytesNext(all, pairsEmitted);
        detailBytes := detailBytes + |g.keeper| + |dup|;
        if detailBytes > LOG_DETAIL_CAP_BYTES {
          log := log + [ByteCapReached(pairsEmitted)];
          break pairs;
        }
        log := log + [DuplicateFile(pair)];
        assert Entries(all[..pairsEmitted]) + [DuplicateFile(pair)] == Entries(all[..pairsEmitted + 1]);
        pairsEmitted := pairsEmitted + 1;
      }
    }
    CutUnique(all, pairsEmitted, Logged(all));
    if pairsEmitted < report.totalDuplicates {
      log := log + [PairsTruncated(pairsEmitted, report.totalDuplicates, |report.groups|, report.totalGroups)];
    }
  }

  lemma {:induction false} NoPairs(gs: seq<DuplicateGroup>)
    ensures Pairs(gs[..0]) == [] && Pairs(gs)[..0] == [] && Bytes([]) == 0
    ensures gs[..|gs|] == gs
  {
  }

  // ----- what a log says about its document -----

  lemma {:induction false} CutUnique(ps: seq<Pair>, j: nat, k: nat)
    requires IsCut(ps, j) && IsCut(ps, k)
    ensures j == k
  {
    if j < k {
      BytesGrow(ps, j + 1, k);
    } else if k < j {
      BytesGrow(ps, k + 1, j);
    }
  }

  lemma {:induction false} BytesGrow(ps: seq<Pair>, j: nat, k: nat)
    requires j <= k <= |ps|
    ensures Bytes(ps[..j]) <= Bytes(ps[..k])
    decreases k
  {
    if j < k {
      BytesNext(ps, k - 1);
      BytesGrow(ps, j, k - 1);
    }
  }

  /** A document has one pair for each of its duplicates. */
  lemma {:induction false} PairsCounted(round: Rounding, gs: seq<Group>)
    requires forall i :: 0 <= i < |gs| ==> |gs[i].files| >= 2
    ensures |Pairs(DisplayAll(round, gs))| == DuplicateCount(gs)
  {
    hide HumanText;
    if gs != [] {
      var n := |gs| - 1;
      assert gs == gs[..n] + [gs[n]];
      DuplicateCountAppend(gs[..n], [gs[n]]);
      assert DuplicateCount([gs[n]]) == |gs[n].files| - 1 by { assert [gs[n]][1..] == []; }
      assert DisplayAll(round, gs)[..n] == DisplayAll(round, gs[..n]);
      PairsCounted(round, gs[..n]);
    }
  }

  /** The retained groups' pairs are the first of the document's, and all of them only when no group
      was dropped: every group has a duplicate. */
  lemma {:induction false} PairsOfPrefix(ds: seq<DuplicateGroup>, i: nat)
    requires i <= |ds| && forall j :: 0 <= j < |ds| ==> |ds[j].duplicates| >= 1
    ensures Pairs(ds[..i]) <= Pairs(ds)
    ensures i < |ds| ==> |Pairs(ds[..i])| < |Pairs(ds)|
    decreases |ds| - i
  {
    if i < |ds| {
      PairsPosition(ds, i);
    } else {
      assert ds[..i] == ds;
    }
  }

  predicate ReportsTruncation(log: seq<LogLine>) {
    exists i :: 0 <= i < |log| && log[i].PairsTruncated?
  }

  function LoggedPairs(log: seq<LogLine>): seq<Pair> {
    if log == [] then []
    else LoggedPairs(log[..|log| - 1]) + match log[|log| - 1] case DuplicateFile(p) => [p] case _ => []
  }

  lemma {:induction false} LoggedPairsAppend(a: seq<LogLine>, b: seq<LogLine>)
    ensures LoggedPairs(a + b) == LoggedPairs(a) + LoggedPairs(b)
  {
    if b == [] {
      assert a + b == a;
    } else {
      assert (a + b)[..|a + b| - 1] == a + b[..|b| - 1];
      LoggedPairsAppend(a, b[..|b| - 1]);
    }
  }

  lemma {:induction false} LoggedPairsOfEntries(ps: seq<Pair>)
    ensures LoggedPairs(Entries(ps)) == ps
  {
    if ps != [] {
      assert Entries(ps)[..|ps| - 1] == Entries(ps[..|ps| - 1]);
      LoggedPairsOfEntries(ps[..|ps| - 1]);
    }
  }

  lemma {:induction false} LogRead(r: Report, k: nat)
    requires k <= |Pairs(r.groups)|
    ensures LoggedPairs(LogOf(r, k)) == Pairs(r.groups)[..k]
    ensures ReportsTruncation(LogOf(r, k)) <==> k < r.totalDuplicates
  {
    hide Pairs;
    var entries := Entries(Pairs(r.groups)[..k]);
    var capped := if k < |Pairs(r.groups)| && k < MAX_LOGGED_PAIRS then [ByteCapReached(k)] else [];
    var cut := if k < r.totalDuplicates then [PairsTruncated(k, r.totalDuplicates, |r.groups|, r.totalGroups)] else [];
    var log := LogOf(r, k);
    assert log == entries + capped + cut;
    if k < r.totalDuplicates {
      assert log[|log| - 1] == cut[0];
    }
    LoggedPairsOfEntries(Pairs(r.groups)[..k]);
    LoggedPairsAppend(entries, capped);
    LoggedPairsAppend(entries + capped, cut);
    assert |capped| == 1 ==> capped[..0] == [];
    assert |cut| == 1 ==> cut[..0] == [];
  }

  /** From document to log. The log of an accepted document holds its first pairs, as many as fit both
      caps, and a truncation line exactly when some pair of the document, retained or not, is missing
      from it. */
  lemma {:induction false} TruncationReportedExactly(round: Rounding, keep: int, doc: Document, r: Report)
    requires Decode(round, keep, doc) == Success(r)
    ensures Acceptable(doc)
    ensures var all, log := Pairs(DisplayAll(round, AllGroups(doc.fields))), LogOf(r, Logged(Pairs(r.groups)));
            && LoggedPairs(log) <= all && r.totalDuplicates == |all|
            && (ReportsTruncation(log) <==> LoggedPairs(log) != all)
            && (!ReportsTruncation(log) ==> r.groups == DisplayAll(round, AllGroups(doc.fields)))
  {
    hide Pairs, Decode, HumanText, Bytes, LoggedFrom, LogOf, LoggedPairs, ReportsTruncation;
    DecodeExactly(round, keep, doc);
    var gs := AllGroups(doc.fields);
    var ds := DisplayAll(round, gs);
    PairsCounted(round, gs);
    var n := |Keep(keep, ds)|;
    assert Keep(keep, ds) == ds[..n];
    PairsOfPrefix(ds, n);
    LogRead(r, Logged(Pairs(r.groups)));
    if n == |ds| {
      assert ds[..n] == ds;
    }
  }

  /** From document to log, pair by pair: the groups are numbered from one, each line names its group's
      first file as the keeper and one of the others as the duplicate, and the lines run through the
      groups and their files in the document's order. */
  lemma {:induction false} LoggedPairsNamed(round: Rounding, keep: int, doc: Document, r: Report, i: nat, j: nat)
    requires Decode(round, keep, doc) == Success(r)
    ensures Acceptable(doc)
    ensures var gs, logged := AllGroups(doc.fields), LoggedPairs(LogOf(r, Logged(Pairs(r.groups))));
            i < |r.groups| <= |gs| && j + 1 < |gs[i].files| ==>
              var p := DuplicateCount(gs[..i]) + j;
              && 0 <= p
              && (p < |logged| ==>
                    && logged[p].group == i + 1
                    && logged[p].keeper == gs[i].files[0] && logged[p].duplicate == gs[i].files[j + 1]
                    && logged[p].size == r.groups[i].sizePerDup)
  {
    hide Pairs, Decode, HumanText, Bytes, LoggedFrom, LogOf, LoggedPairs, AllGroups, DuplicateCount;
    DecodeExactly(round, keep, doc);
    var gs := AllGroups(doc.fields);
    LogRead(r, Logged(Pairs(r.groups)));
    if i < |r.groups| && j + 1 < |gs[i].files| {
      assert r.groups[i] == Display(round, gs[i]) && r.groups[..i] == DisplayAll(round, gs[..i]);
      PairsCounted(round, gs[..i]);
      PairsPosition(r.groups, i);
      var p := DuplicateCount(gs[..i]) + j;
      assert Pairs(r.groups)[p] == Pairs(r.groups[..i + 1])[p] == GroupPairs(i + 1, r.groups[i])[j];
    }
  }

  /** The two caps: at most 500 pairs and 64 KiB of file names are logged, and where a pair is held back
      one of the two would be exceeded. A byte-cap line stands in the log exactly where it was the
      names' length that held back the next pair. */
  lemma {:induction false} CapsExactly(r: Report)
    ensures var all, k := Pairs(r.groups), Logged(Pairs(r.groups));
            var log := LogOf(r, k);
            && LoggedPairs(log) == all[..k] && k <= 500 && NameBytes(all[..k]) <= 65_536
            && (k < |all| ==> k == 500 || NameBytes(all[..k + 1]) > 65_536)
            && ((exists i :: 0 <= i < |log| && log[i].ByteCapReached?)
                <==> k < 500 && k < |all| && NameBytes(all[..k + 1]) > 65_536)
            && (forall i :: 0 <= i < |log| && log[i].ByteCapReached? ==> i == k && log[i].loggedPairs == k)
            && (forall i :: 0 <= i < |log| && log[i].PairsTruncated? ==>
                  i == |log| - 1
                  && log[i] == PairsTruncated(k, r.totalDuplicates, |r.groups|, r.totalGroups))
  {
    hide Pairs, Bytes, LoggedFrom, NameBytes;
    var all, k := Pairs(r.groups), Logged(Pairs(r.groups));
    LogRead(r, k);
    BytesCountNames(all[..k]);
    if k < |all| {
      BytesCountNames(all[..k + 1]);
    }
    var log := LogOf(r, k);
    if k < |all| && k < 500 {
      assert log[k] == ByteCapReached(k);
    }
  }

  /** The bytes of the keeper's and the duplicate's names over all pairs. */
  function NameBytes(ps: seq<Pair>): nat {
    if ps == [] then 0 else |ps[0].keeper| + |ps[0].duplicate| + NameBytes(ps[1..])
  }

  lemma {:induction false} BytesCountNames(ps: seq<Pair>)
    ensures Bytes(ps) == NameBytes(ps)
  {
    if ps != [] {
      var n := |ps| - 1;
      BytesCountNames(ps[..n]);
      NameBytesAppend(ps[..n], ps[n]);
      assert ps[..n] + [ps[n]] == ps;
    }
  }

  lemma {:induction false} NameBytesAppend(ps: seq<Pair>, p: Pair)
    ensures NameBytes(ps + [p]) == NameBytes(ps) + |p.keeper| + |p.duplicate|
  {
    if ps == [] {
      assert [p][1..] == [];
    } else {
      assert (ps + [p])[1..] == ps[1..] + [p];
      NameBytesAppend(ps[1..], p);
    }
  }
}
