/** The strict, streamed decode of a scan report. A document is the list of its top-level fields as
    the JSON reader delivers them, any of which may turn out unreadable. */
module Report {
  import opened ByteSize
  import opened Options
  import opened Utf8

  type FileName = seq<byte>

  // ----- the document -----

  datatype Stats = Stats(groupCount: int, redundantFileSize: int)

  datatype Group = Group(files: seq<FileName>, fileLen: int)

  datatype Element = Malformed | Element(group: Group)

  datatype GroupsValue = NotArray | NullValue | Array(elements: seq<Element>, closed: bool)

  datatype HeaderValue = BadHeader | Header(stats: Option<Stats>)

  datatype Field = HeaderField(header: HeaderValue) | GroupsField(groups: GroupsValue) | OtherField(readable: bool)

  /** `wellFormed` is false when the object itself is broken behind the listed fields; `trailing`
      tells of data after it. */
  datatype Document = Document(fields: seq<Field>, wellFormed: bool, trailing: bool)

  // ----- the result -----

  datatype DuplicateGroup = DuplicateGroup(keeper: FileName, sizePerDup: string, duplicates: seq<FileName>)

  datatype Report = Report(groups: seq<DuplicateGroup>, stats: Stats, totalGroups: int, totalDuplicates: int)

  datatype DecodeError =
    | HeaderUnreadable
    | GroupsUnreadable
    | GroupsNull
    | GroupUnreadable(index: int)
    | TooFewFiles(index: int, count: int)
    | NegativeLength(index: int, length: int)
    | GroupsUnclosed
    | FieldUnreadable
    | ObjectBroken
    | TrailingData
    | MissingHeader
    | NoStats
    | MissingGroups
    | CountMismatch(claimed: int, found: int)

  datatype Decoded = Success(report: Report) | Failure(error: DecodeError)

  // ----- the accounting, field by field -----

  datatype Account = Account(header: Option<Option<Stats>>, groupsSeen: bool, groups: seq<DuplicateGroup>,
                             totalGroups: int, totalDuplicates: int)

  datatype Step = Next(account: Account) | Stop(error: DecodeError)

  const NO_ACCOUNT := Account(None, false, [], 0, 0)

  function Display(round: Rounding, g: Group): DuplicateGroup
    requires |g.files| >= 1
  {
    DuplicateGroup(g.files[0], HumanText(round, g.fileLen), g.files[1..])
  }

  function CheckGroup(index: int, g: Group): Option<DecodeError> {
    if |g.files| < 2 then Some(TooFewFiles(index, |g.files|))
    else if g.fileLen < 0 then Some(NegativeLength(index, g.fileLen))
    else None
  }

  function AddGroup(round: Rounding, keep: int, a: Account, g: Group): Account
    requires |g.files| >= 1
  {
    a.(groups := if |a.groups| < keep then a.groups + [Display(round, g)] else a.groups,
       totalGroups := a.totalGroups + 1,
       totalDuplicates := a.totalDuplicates + |g.files| - 1)
  }

  function AddElements(round: Rounding, keep: int, a: Account, es: seq<Element>): Step
    decreases |es|
  {
    if es == [] then Next(a)
    else match es[0]
      case Malformed => Stop(GroupUnreadable(a.totalGroups))
      case Element(g) =>
        match CheckGroup(a.totalGroups, g)
        case Some(e) => Stop(e)
        case None => AddElements(round, keep, AddGroup(round, keep, a, g), es[1..])
  }

  /** After the first `i` elements the account is `a`. */
  ghost predicate Reached(round: Rounding, keep: int, start: Account, es: seq<Element>, i: nat, a: Account)
    requires i <= |es|
  {
    AddElements(round, keep, start, es) == AddElements(round, keep, a, es[i..])
  }

  lemma {:induction false} ReachedStart(round: Rounding, keep: int, start: Account, es: seq<Element>)
    ensures Reached(round, keep, start, es, 0, start)
  {
    assert es[0..] == es;
  }

  lemma {:induction false} ReachedNext(round: Rounding, keep: int, start: Account, es: seq<Element>, i: nat, a: Account)
    requires i <= |es| && Reached(round, keep, start, es, i, a)
    ensures i == |es| ==> AddElements(round, keep, start, es) == Next(a)
    ensures i < |es| && es[i].Malformed? ==> AddElements(round, keep, start, es) == Stop(GroupUnreadable(a.totalGroups))
    ensures i < |es| && es[i].Element? ==>
              match CheckGroup(a.totalGroups, es[i].group)
              case Some(e) => AddElements(round, keep, start, es) == Stop(e)
              case None => Reached(round, keep, start, es, i + 1, AddGroup(round, keep, a, es[i].group))
  {
    hide AddGroup;
    if i < |es| {
      assert es[i..][1..] == es[i + 1..];
    }
  }

  function AddGroups(round: Rounding, keep: int, a: Account, v: GroupsValue): Step {
    match v
    case NotArray => Stop(GroupsUnreadable)
    case NullValue => Stop(GroupsNull)
    case Array(es, closed) =>
      match AddElements(round, keep, a, es)
      case Stop(e) => Stop(e)
      case Next(b) => if closed then Next(b) else Stop(GroupsUnclosed)
  }

  function AddField(round: Rounding, keep: int, a: Account, f: Field): Step {
    match f
    case HeaderField(BadHeader) => Stop(HeaderUnreadable)
    case HeaderField(Header(stats)) => Next(a.(header := Some(stats)))
    case GroupsField(v) => AddGroups(round, keep, a.(groupsSeen := true), v)
    case OtherField(readable) => if readable then Next(a) else Stop(FieldUnreadable)
  }

  function AddFields(round: Rounding, keep: int, a: Account, fs: seq<Field>): Step
    decreases |fs|
  {
    if fs == [] then Next(a)
    else match AddField(round, keep, a, fs[0])
      case Stop(e) => Stop(e)
      case Next(b) => AddFields(round, keep, b, fs[1..])
  }

  function Finish(a: Account, doc: Document): Decoded {
    if !doc.wellFormed then Failure(ObjectBroken)
    else if doc.trailing then Failure(TrailingData)
    else if a.header.None? then Failure(MissingHeader)
    else if a.header.value.None? then Failure(NoStats)
    else if !a.groupsSeen then Failure(MissingGroups)
    else if a.header.value.value.groupCount != a.totalGroups then
      Failure(CountMismatch(a.header.value.value.groupCount, a.totalGroups))
    else Success(Report(a.groups, a.header.value.value, a.totalGroups, a.totalDuplicates))
  }

  function Decode(round: Rounding, keep: int, doc: Document): Decoded {
    match AddFields(round, keep, NO_ACCOUNT, doc.fields)
    case Stop(e) => Failure(e)
    case Next(a) => Finish(a, doc)
  }

  // ----- the decoder object -----

  class ReportDecoder {
    const round: Rounding
    const keepGroups: int
    var header: Option<Option<Stats>>
    var groupsSeen: bool
    var groups: seq<DuplicateGroup>
    var totalGroups: int
    var totalDuplicates: int
    var fieldErr: Option<DecodeError>

    ghost function Value(): Account
      reads this
    {
      Account(header, groupsSeen, groups, totalGroups, totalDuplicates)
    }

    constructor (round: Rounding, keepGroups: int)
      ensures this.round == round && this.keepGroups == keepGroups
      ensures Value() == NO_ACCOUNT && fieldErr == None
    {
      this.round := round;
      this.keepGroups := keepGroups;
      header := None;
      groupsSeen := false;
      groups := [];
      totalGroups := 0;
      totalDuplicates := 0;
      fieldErr := None;
    }

    /** Retains a checked group while there is room, and counts it either way. */
    method CountGroup(g: Group)
      requires |g.files| >= 1
      modifies this`groups, this`totalGroups, this`totalDuplicates
      ensures Value() == AddGroup(round, keepGroups, old(Value()), g)
    {
      hide HumanText;
      if |groups| < keepGroups {
        var size := HumanBytes(round, g.fileLen);
        groups := groups + [DuplicateGroup(g.files[0], size, g.files[1..])];
      }
      totalGroups := totalGroups + 1;
      totalDuplicates := totalDuplicates + |g.files| - 1;
    }

    method DecodeGroups(v: GroupsValue) returns (err: Option<DecodeError>)
      modifies this`groups, this`totalGroups, this`totalDuplicates
      ensures match AddGroups(round, keepGroups, old(Value()), v)
              case Next(a) => err == None && Value() == a
              case Stop(e) => err == Some(e)
    {
      if v.NotArray? {
        return Some(GroupsUnreadable);
      }
      if v.NullValue? {
        return Some(GroupsNull);
      }
      hide AddElements, Reached, AddGroup;
      ReachedStart(round, keepGroups, Value(), v.elements);
      for i := 0 to |v.elements|
        invariant Reached(round, keepGroups, old(Value()), v.elements, i, Value())
      {
        ReachedNext(round, keepGroups, old(Value()), v.elements, i, Value());
        if v.elements[i].Malformed? {
          return Some(GroupUnreadable(totalGroups));
        }
        var g := v.elements[i].group;
        if |g.files| < 2 {
          return Some(TooFewFiles(totalGroups, |g.files|));
        }
        if g.fileLen < 0 {
          return Some(NegativeLength(totalGroups, g.fileLen));
        }
        CountGroup(g);
      }
      ReachedNext(round, keepGroups, old(Value()), v.elements, |v.elements|, Value());
      if !v.closed {
        return Some(GroupsUnclosed);
      }
      return None;
    }

    method Field(f: Field) returns (err: Option<DecodeError>)
      modifies this
      ensures match AddField(round, keepGroups, old(Value()), f)
              case Next(a) => err == None && Value() == a && fieldErr == old(fieldErr)
              case Stop(e) => err == Some(e) && fieldErr == Some(e)
    {
      match f {
        case HeaderField(h) =>
          header := Some(None);
          if h.BadHeader? {
            err := Some(HeaderUnreadable);
          } else {
            header := Some(h.stats);
            err := None;
          }
        case GroupsField(v) =>
          groupsSeen := true;
          err := DecodeGroups(v);
        case OtherField(readable) =>
          err := if readable then None else Some(FieldUnreadable);
      }
      if err.Some? {
        fieldErr := err;
      }
    }
  }

  method DecodeReport(round: Rounding, doc: Document, keepGroups: int) returns (d: Decoded)
    ensures d == Decode(round, keepGroups, doc)
  {
    hide AddField, Finish;
    var rd := new ReportDecoder(round, keepGroups);
    for i := 0 to |doc.fields|
      invariant rd.round == round && rd.keepGroups == keepGroups
      invariant AddFields(round, keepGroups, rd.Value(), doc.fields[i..])
                == AddFields(round, keepGroups, NO_ACCOUNT, doc.fields)
    {
      assert doc.fields[i..][1..] == doc.fields[i + 1..] && doc.fields[i..][0] == doc.fields[i];
      var err := rd.Field(doc.fields[i]);
      if err.Some? {
        return Failure(rd.fieldErr.value);
      }
    }
    d := Conclude(rd, doc);
  }

  /** The checks behind the walk over the fields. */
  method Conclude(rd: ReportDecoder, doc: Document) returns (d: Decoded)
    ensures d == Finish(rd.Value(), doc)
  {
    if !doc.wellFormed {
      return Failure(ObjectBroken);
    }
    if doc.trailing {
      return Failure(TrailingData);
    }
    if rd.header.None? {
      return Failure(MissingHeader);
    }
    if rd.header.value.None? {
      return Failure(NoStats);
    }
    if !rd.groupsSeen {
      return Failure(MissingGroups);
    }
    var stats := rd.header.value.value;
    if stats.groupCount != rd.totalGroups {
      return Failure(CountMismatch(stats.groupCount, rd.totalGroups));
    }
    return Success(Report(rd.groups, stats, rd.totalGroups, rd.totalDuplicates));
  }

  // ----- what a successful decode reports -----

  predicate ElementOk(e: Element) {
    e.Element? && |e.group.files| >= 2 && e.group.fileLen >= 0
  }

  predicate FieldOk(f: Field) {
    match f
    case HeaderField(h) => h.Header?
    case GroupsField(v) => v.Array? && v.closed && forall i :: 0 <= i < |v.elements| ==> ElementOk(v.elements[i])
    case OtherField(readable) => readable
  }

  function GroupsOf(es: seq<Element>): seq<Group>
    requires forall i :: 0 <= i < |es| ==> ElementOk(es[i])
  {
    seq(|es|, i requires 0 <= i < |es| && ElementOk(es[i]) => es[i].group)
  }

  /** Every group of the document, over all its groups arrays. */
  function AllGroups(fs: seq<Field>): (gs: seq<Group>)
    requires forall i :: 0 <= i < |fs| ==> FieldOk(fs[i])
    ensures forall i :: 0 <= i < |gs| ==> |gs[i].files| >= 2
  {
    if fs == [] then []
    else
      assert FieldOk(fs[0]);
      (if fs[0].GroupsField? then GroupsOf(fs[0].groups.elements) else []) + AllGroups(fs[1..])
  }

  /** The last header the document carries. */
  function LastHeader(fs: seq<Field>): Option<HeaderValue> {
    if fs == [] then None
    else if fs[|fs| - 1].HeaderField? then Some(fs[|fs| - 1].header)
    else LastHeader(fs[..|fs| - 1])
  }

  function DuplicateCount(gs: seq<Group>): int {
    if gs == [] then 0 else |gs[0].files| - 1 + DuplicateCount(gs[1..])
  }

  function DisplayAll(round: Rounding, gs: seq<Group>): (ds: seq<DuplicateGroup>)
    requires forall i :: 0 <= i < |gs| ==> |gs[i].files| >= 2
    ensures |ds| == |gs|
  {
    seq(|gs|, i requires 0 <= i < |gs| => Display(round, gs[i]))
  }

  function Keep<T>(keep: int, s: seq<T>): seq<T> {
    if keep <= 0 then [] else if keep < |s| then s[..keep] else s
  }

  /** The document the strictness contract accepts. */
  predicate Acceptable(doc: Document) {
    && (forall i :: 0 <= i < |doc.fields| ==> FieldOk(doc.fields[i]))
    && doc.wellFormed && !doc.trailing
    && LastHeader(doc.fields).Some? && LastHeader(doc.fields).value.Header? && LastHeader(doc.fields).value.stats.Some?
    && (exists i :: 0 <= i < |doc.fields| && doc.fields[i].GroupsField?)
    && LastHeader(doc.fields).value.stats.value.groupCount == |AllGroups(doc.fields)|
  }

  /** What an account holds after the given groups. */
  predicate Counts(round: Rounding, keep: int, a: Account, gs: seq<Group>)
    requires forall i :: 0 <= i < |gs| ==> |gs[i].files| >= 2
  {
    a.groups == Keep(keep, DisplayAll(round, gs)) && a.totalGroups == |gs| && a.totalDuplicates == DuplicateCount(gs)
  }

  lemma {:induction false} DuplicateCountAppend(gs: seq<Group>, hs: seq<Group>)
    ensures DuplicateCount(gs + hs) == DuplicateCount(gs) + DuplicateCount(hs)
  {
    if gs == [] {
      assert gs + hs == hs;
    } else {
      assert (gs + hs)[1..] == gs[1..] + hs;
      DuplicateCountAppend(gs[1..], hs);
    }
  }

  lemma {:induction false} AddGroupCounts(round: Rounding, keep: int, a: Account, gs: seq<Group>, g: Group)
    requires (forall i :: 0 <= i < |gs| ==> |gs[i].files| >= 2) && |g.files| >= 2
    requires Counts(round, keep, a, gs)
    ensures Counts(round, keep, AddGroup(round, keep, a, g), gs + [g])
  {
    hide HumanText;
    DuplicateCountAppend(gs, [g]);
    assert DisplayAll(round, gs + [g]) == DisplayAll(round, gs) + [Display(round, g)];
  }

  lemma {:induction false} AddElementsCounts(round: Rounding, keep: int, a: Account, gs: seq<Group>, es: seq<Element>)
    requires (forall i :: 0 <= i < |gs| ==> |gs[i].files| >= 2) && Counts(round, keep, a, gs)
    ensures AddElements(round, keep, a, es).Next? <==> forall i :: 0 <= i < |es| ==> ElementOk(es[i])
    ensures var s := AddElements(round, keep, a, es);
            s.Next? ==> Counts(round, keep, s.account, gs + GroupsOf(es)) && s.account.header == a.header
                        && s.account.groupsSeen == a.groupsSeen
    decreases |es|
  {
    hide Counts, Display, HumanText, DuplicateCount;
    if es == [] {
      assert gs + GroupsOf(es) == gs;
    } else if ElementOk(es[0]) {
      var g := es[0].group;
      AddGroupCounts(round, keep, a, gs, g);
      AddElementsCounts(round, keep, AddGroup(round, keep, a, g), gs + [g], es[1..]);
      assert forall i :: 0 < i < |es| ==> es[i] == es[1..][i - 1];
      if forall i :: 0 <= i < |es| ==> ElementOk(es[i]) {
        assert gs + GroupsOf(es) == gs + [g] + GroupsOf(es[1..]);
      }
    }
  }

  lemma {:induction false} AllGroupsAppend(fs: seq<Field>, f: Field)
    requires (forall i :: 0 <= i < |fs| ==> FieldOk(fs[i])) && FieldOk(f)
    ensures forall i :: 0 <= i < |fs + [f]| ==> FieldOk((fs + [f])[i])
    ensures AllGroups(fs + [f]) == AllGroups(fs) + if f.GroupsField? then GroupsOf(f.groups.elements) else []
  {
    hide FieldOk;
    if fs == [] {
      assert fs + [f] == [f] && [f][1..] == [];
    } else {
      assert (fs + [f])[1..] == fs[1..] + [f];
      AllGroupsAppend(fs[1..], f);
    }
  }

  /** What an account holds after the given fields. */
  ghost predicate Summarises(round: Rounding, keep: int, a: Account, fs: seq<Field>)
    requires forall i :: 0 <= i < |fs| ==> FieldOk(fs[i])
  {
    && Counts(round, keep, a, AllGroups(fs))
    && (a.groupsSeen <==> exists i :: 0 <= i < |fs| && fs[i].GroupsField?)
    && a.header == (match LastHeader(fs) case Some(Header(stats)) => Some(stats) case _ => None)
  }

  lemma {:induction false} AddFieldSummarises(round: Rounding, keep: int, a: Account, fs: seq<Field>, f: Field)
    requires (forall i :: 0 <= i < |fs| ==> FieldOk(fs[i])) && Summarises(round, keep, a, fs)
    ensures AddField(round, keep, a, f).Next? <==> FieldOk(f)
    ensures FieldOk(f) ==>
              (forall i :: 0 <= i < |fs + [f]| ==> FieldOk((fs + [f])[i]))
              && Summarises(round, keep, AddField(round, keep, a, f).account, fs + [f])
  {
    hide Counts, AddElements, AllGroups;
    var gs := AllGroups(fs);
    if f.GroupsField? && f.groups.Array? {
      var b := a.(groupsSeen := true);
      SameCounts(round, keep, a, b, gs);
      AddElementsCounts(round, keep, b, gs, f.groups.elements);
    }
    if FieldOk(f) {
      AllGroupsAppend(fs, f);
      var all := fs + [f];
      assert all[|all| - 1] == f && all[..|all| - 1] == fs;
      assert gs + [] == gs;
      if f.HeaderField? {
        SameCounts(round, keep, a, AddField(round, keep, a, f).account, gs);
      }
      if f.GroupsField? {
        assert all[|fs|].GroupsField?;
      } else if a.groupsSeen {
        var i :| 0 <= i < |fs| && fs[i].GroupsField?;
        assert all[i].GroupsField?;
      }
    }
  }

  lemma {:induction false} SameCounts(round: Rounding, keep: int, a: Account, b: Account, gs: seq<Group>)
    requires (forall i :: 0 <= i < |gs| ==> |gs[i].files| >= 2) && Counts(round, keep, a, gs)
    requires a.groups == b.groups && a.totalGroups == b.totalGroups && a.totalDuplicates == b.totalDuplicates
    ensures Counts(round, keep, b, gs)
  {
  }

  lemma {:induction false} AddFieldsSummarise(round: Rounding, keep: int, a: Account, done: seq<Field>, fs: seq<Field>)
    requires (forall i :: 0 <= i < |done| ==> FieldOk(done[i])) && Summarises(round, keep, a, done)
    ensures AddFields(round, keep, a, fs).Next? <==> forall i :: 0 <= i < |fs| ==> FieldOk(fs[i])
    ensures AddFields(round, keep, a, fs).Next? ==>
              (forall i :: 0 <= i < |done + fs| ==> FieldOk((done + fs)[i]))
              && Summarises(round, keep, AddFields(round, keep, a, fs).account, done + fs)
    decreases |fs|
  {
    hide FieldOk, Summarises, AddField;
    if fs == [] {
      assert done + fs == done;
    } else {
      AddFieldSummarises(round, keep, a, done, fs[0]);
      if FieldOk(fs[0]) {
        AddFieldsSummarise(round, keep, AddField(round, keep, a, fs[0]).account, done + [fs[0]], fs[1..]);
        assert done + [fs[0]] + fs[1..] == done + fs;
        assert forall i :: 0 < i < |fs| ==> fs[i] == fs[1..][i - 1];
      }
    }
  }

  lemma {:induction false} NothingSummarised(round: Rounding, keep: int)
    ensures Summarises(round, keep, NO_ACCOUNT, [])
  {
    assert DisplayAll(round, []) == [];
  }

  /** The decode succeeds on exactly the documents the strictness contract accepts. It then reports
      the totals of the whole document, the retention cap notwithstanding, and keeps the first groups
      in display form. */
  lemma {:induction false} DecodeExactly(round: Rounding, keep: int, doc: Document)
    ensures Decode(round, keep, doc).Success? <==> Acceptable(doc)
    ensures Acceptable(doc) ==>
              var gs := AllGroups(doc.fields);
              Decode(round, keep, doc)
              == Success(Report(Keep(keep, DisplayAll(round, gs)), LastHeader(doc.fields).value.stats.value, |gs|,
                                DuplicateCount(gs)))
  {
    hide FieldOk, AddFields, Summarises, Finish;
    NothingSummarised(round, keep);
    AddFieldsSummarise(round, keep, NO_ACCOUNT, [], doc.fields);
    assert [] + doc.fields == doc.fields;
    if forall i :: 0 <= i < |doc.fields| ==> FieldOk(doc.fields[i]) {
      FinishExactly(round, keep, AddFields(round, keep, NO_ACCOUNT, doc.fields).account, doc);
    }
  }

  lemma {:induction false} FinishExactly(round: Rounding, keep: int, a: Account, doc: Document)
    requires (forall i :: 0 <= i < |doc.fields| ==> FieldOk(doc.fields[i])) && Summarises(round, keep, a, doc.fields)
    ensures Finish(a, doc).Success? <==> Acceptable(doc)
    ensures Acceptable(doc) ==>
              var gs := AllGroups(doc.fields);
              Finish(a, doc)
              == Success(Report(Keep(keep, DisplayAll(round, gs)), LastHeader(doc.fields).value.stats.value, |gs|,
                                DuplicateCount(gs)))
  {
    hide FieldOk, AllGroups, DisplayAll, Keep, DuplicateCount, LastHeader;
    LastHeaderOk(doc.fields);
  }

  lemma {:induction false} LastHeaderOk(fs: seq<Field>)
    requires forall i :: 0 <= i < |fs| ==> FieldOk(fs[i])
    ensures LastHeader(fs).Some? ==> LastHeader(fs).value.Header?
  {
    if fs != [] {
      assert FieldOk(fs[|fs| - 1]);
      LastHeaderOk(fs[..|fs| - 1]);
    }
  }

  /** What is retained of a document, group by group: the first file is the keeper and all the others
      are its duplicates, in order, and the size text reads back as the printed size of one file. */
  lemma {:induction false} GroupsReported(round: Rounding, keep: int, num: FloatParser, upper: UpperCase, doc: Document,
                                          r: Report)
    requires Decode(round, keep, doc) == Success(r)
    ensures Acceptable(doc)
    ensures var gs := AllGroups(doc.fields);
            && |r.groups| == (if keep <= 0 then 0 else if keep < |gs| then keep else |gs|)
            && (forall k :: 0 <= k < |r.groups| ==>
                  && r.groups[k].keeper == gs[k].files[0]
                  && [r.groups[k].keeper] + r.groups[k].duplicates == gs[k].files
                  && (gs[k].fileLen < 0x8000_0000_0000_0000 ==>
                        ParseHumanBytes(num, upper, r.groups[k].sizePerDup) == Printed(round, gs[k].fileLen)))
  {
    hide Decode, HumanText, Printed, AllGroups, ParseHumanBytes, FieldOk;
    DecodeExactly(round, keep, doc);
    var gs := AllGroups(doc.fields);
    LengthsOk(doc.fields);
    forall k | 0 <= k < |gs| && gs[k].fileLen < 0x8000_0000_0000_0000
      ensures ParseHumanBytes(num, upper, HumanText(round, gs[k].fileLen)) == Printed(round, gs[k].fileLen)
    {
      ParsePrinted(num, upper, round, gs[k].fileLen);
    }
  }

  lemma {:induction false} LengthsOk(fs: seq<Field>)
    requires forall i :: 0 <= i < |fs| ==> FieldOk(fs[i])
    ensures forall i :: 0 <= i < |AllGroups(fs)| ==> AllGroups(fs)[i].fileLen >= 0
  {
    if fs != [] {
      assert FieldOk(fs[0]);
      LengthsOk(fs[1..]);
    }
  }

  // ----- what a failed decode reports -----

  predicate ElementsOk(es: seq<Element>) {
    forall i :: 0 <= i < |es| ==> ElementOk(es[i])
  }

  predicate FieldsOk(fs: seq<Field>) {
    forall i :: 0 <= i < |fs| ==> FieldOk(fs[i])
  }

  /** The error is true of one bad element, the `index`-th group of the document. */
  predicate ElementError(bad: Element, index: int, e: DecodeError) {
    match e
    case GroupUnreadable(n) => n == index && bad.Malformed?
    case TooFewFiles(n, count) => n == index && bad.Element? && |bad.group.files| == count < 2
    case NegativeLength(n, length) => n == index && bad.Element? && |bad.group.files| >= 2 && bad.group.fileLen == length < 0
    case _ => false
  }

  /** The error is about the first bad element; its index counts the groups of earlier arrays too. */
  ghost predicate ElementExplains(es: seq<Element>, before: int, e: DecodeError) {
    exists j :: 0 <= j < |es| && ElementsOk(es[..j]) && ElementError(es[j], before + j, e)
  }

  /** The error is true of the field, of which `before` groups were read earlier. */
  ghost predicate FieldExplains(f: Field, before: int, e: DecodeError) {
    match e
    case HeaderUnreadable => f == HeaderField(BadHeader)
    case GroupsUnreadable => f == GroupsField(NotArray)
    case GroupsNull => f == GroupsField(NullValue)
    case GroupsUnclosed => f.GroupsField? && f.groups.Array? && !f.groups.closed && ElementsOk(f.groups.elements)
    case FieldUnreadable => f == OtherField(false)
    case _ => f.GroupsField? && f.groups.Array? && ElementExplains(f.groups.elements, before, e)
  }

  predicate Closed(doc: Document) {
    doc.wellFormed && !doc.trailing
  }

  /** The error is true of a document whose fields are all readable. */
  ghost predicate ClosingExplains(doc: Document, e: DecodeError)
    requires FieldsOk(doc.fields)
  {
    match e
    case ObjectBroken => !doc.wellFormed
    case TrailingData => doc.wellFormed && doc.trailing
    case MissingHeader => Closed(doc) && LastHeader(doc.fields) == None
    case NoStats => Closed(doc) && LastHeader(doc.fields) == Some(Header(None))
    case MissingGroups => Closed(doc) && forall f :: f in doc.fields ==> !f.GroupsField?
    case CountMismatch(claimed, found) =>
      && Closed(doc) && found == |AllGroups(doc.fields)| != claimed
      && exists stats: Stats :: LastHeader(doc.fields) == Some(Header(Some(stats))) && stats.groupCount == claimed
    case _ => false
  }

  /** The error is true of the document: it is about the first bad field, or about the document as a
      whole when every field is readable. */
  ghost predicate Explains(doc: Document, e: DecodeError) {
    if FieldsOk(doc.fields) then ClosingExplains(doc, e)
    else
      exists k :: 0 <= k < |doc.fields| && FieldsOk(doc.fields[..k]) && !FieldOk(doc.fields[k])
                  && FieldExplains(doc.fields[k], |AllGroups(doc.fields[..k])|, e)
  }

  lemma {:induction false} ExplainsCons(es: seq<Element>, before: int, e: DecodeError)
    requires es != [] && ElementOk(es[0]) && ElementExplains(es[1..], before + 1, e)
    ensures ElementExplains(es, before, e)
  {
    hide ElementOk, ElementError;
    var r := es[1..];
    var j :| 0 <= j < |r| && ElementsOk(r[..j]) && ElementError(r[j], before + 1 + j, e);
    assert forall i :: 0 < i < j + 1 ==> es[i] == r[..j][i - 1];
    assert ElementsOk(es[..j + 1]) && ElementError(es[j + 1], before + (j + 1), e);
  }

  lemma {:induction false} AddElementsExplained(round: Rounding, keep: int, a: Account, es: seq<Element>)
    requires AddElements(round, keep, a, es).Stop?
    ensures ElementExplains(es, a.totalGroups, AddElements(round, keep, a, es).error)
    decreases |es|
  {
    var e := AddElements(round, keep, a, es).error;
    if !ElementOk(es[0]) {
      assert ElementsOk(es[..0]) && ElementError(es[0], a.totalGroups + 0, e);
    } else {
      hide ElementExplains, ElementOk;
      AddElementsExplained(round, keep, AddGroup(round, keep, a, es[0].group), es[1..]);
      ExplainsCons(es, a.totalGroups, e);
    }
  }

  lemma {:induction false} AddFieldExplained(round: Rounding, keep: int, a: Account, f: Field)
    requires AddField(round, keep, a, f).Stop?
    ensures FieldExplains(f, a.totalGroups, AddField(round, keep, a, f).error)
  {
    hide AddElements, ElementExplains;
    if f.GroupsField? && f.groups.Array? {
      var b := a.(groupsSeen := true);
      var es := f.groups.elements;
      if AddElements(round, keep, b, es).Stop? {
        AddElementsExplained(round, keep, b, es);
        ElementErrors(es, a.totalGroups, AddElements(round, keep, b, es).error);
      } else {
        AddElementsAllOk(round, keep, b, es);
      }
    }
  }

  lemma {:induction false} ElementErrors(es: seq<Element>, before: int, e: DecodeError)
    requires ElementExplains(es, before, e)
    ensures e.GroupUnreadable? || e.TooFewFiles? || e.NegativeLength?
  {
  }

  lemma {:induction false} AddElementsAllOk(round: Rounding, keep: int, a: Account, es: seq<Element>)
    ensures AddElements(round, keep, a, es).Next? <==> ElementsOk(es)
    decreases |es|
  {
    if es != [] && ElementOk(es[0]) {
      AddElementsAllOk(round, keep, AddGroup(round, keep, a, es[0].group), es[1..]);
      assert forall i :: 0 < i < |es| ==> es[i] == es[1..][i - 1];
    }
  }

  lemma {:induction false} AddFieldsExplained(round: Rounding, keep: int, a: Account, done: seq<Field>, fs: seq<Field>)
    returns (k: nat)
    requires FieldsOk(done) && Summarises(round, keep, a, done)
    requires AddFields(round, keep, a, fs).Stop?
    ensures k < |fs| && FieldsOk(done + fs[..k]) && !FieldOk(fs[k])
    ensures FieldExplains(fs[k], |AllGroups(done + fs[..k])|, AddFields(round, keep, a, fs).error)
    decreases |fs|
  {
    hide FieldOk, AddField, FieldExplains;
    AddFieldSummarises(round, keep, a, done, fs[0]);
    if !FieldOk(fs[0]) {
      k := 0;
      assert done + fs[..0] == done;
      AddFieldExplained(round, keep, a, fs[0]);
    } else {
      var j := AddFieldsExplained(round, keep, AddField(round, keep, a, fs[0]).account, done + [fs[0]], fs[1..]);
      k := j + 1;
      assert done + [fs[0]] + fs[1..][..j] == done + fs[..k];
    }
  }

  /** Every refusal says what is wrong with the document, and with which group of it. */
  lemma {:induction false} RefusalExplained(round: Rounding, keep: int, doc: Document)
    requires Decode(round, keep, doc).Failure?
    ensures Explains(doc, Decode(round, keep, doc).error)
  {
    hide FieldOk, AddFields, FieldExplains, Summarises, AllGroups;
    NothingSummarised(round, keep);
    AddFieldsSummarise(round, keep, NO_ACCOUNT, [], doc.fields);
    assert [] + doc.fields == doc.fields;
    if AddFields(round, keep, NO_ACCOUNT, doc.fields).Stop? {
      var k := AddFieldsExplained(round, keep, NO_ACCOUNT, [], doc.fields);
      assert [] + doc.fields[..k] == doc.fields[..k];
    } else {
      FinishExplained(round, keep, AddFields(round, keep, NO_ACCOUNT, doc.fields).account, doc);
    }
  }

  lemma {:induction false} FinishExplained(round: Rounding, keep: int, a: Account, doc: Document)
    requires FieldsOk(doc.fields) && Summarises(round, keep, a, doc.fields) && Finish(a, doc).Failure?
    ensures Explains(doc, Finish(a, doc).error)
  {
    hide FieldOk, AllGroups, DisplayAll, Keep, DuplicateCount, LastHeader;
    LastHeaderOk(doc.fields);
  }
}
