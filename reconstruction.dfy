/**
 * Per-issue reconstruction: each issue's records are sorted by event date,
 * then one forward pass finds the first approval, the rejections before it
 * and the week labels of every later approval; the latency follows from the
 * first approval's date and the issue's creation date.
 */
module Reconstruction {
  import opened Wrappers
  import opened Calendar
  import opened Text
  import opened Cells
  import opened Grouping

  /** The sort key: the event date as a day number. */
  function Day(s: Spec): int
  {
    DayNumber(s.eventDate)
  }

  predicate SortedByDate(xs: seq<Spec>)
  {
    forall i, j :: 0 <= i < j < |xs| ==> Day(xs[i]) <= Day(xs[j])
  }

  /**
   * sort.Slice with "event date strictly before" as the order: afterwards the
   * records are in non-decreasing date order and are the same records. Like
   * sort.Slice, this promises nothing about the order of records with equal dates.
   */
  method SortByDate(a: array<Spec>)
    modifies a
    ensures SortedByDate(a[..])
    ensures multiset(a[..]) == multiset(old(a[..]))
  {
    var i := 0;
    while i < a.Length
      invariant 0 <= i <= a.Length
      invariant SortedByDate(a[..i])
      invariant multiset(a[..]) == multiset(old(a[..]))
    {
      InsertLast(a, i);
      i := i + 1;
    }
    assert a[..i] == a[..];
  }

  /** Moves `a[i]` left past every record dated after it, so that `a[..i + 1]` is sorted. */
  method InsertLast(a: array<Spec>, i: nat)
    requires i < a.Length && SortedByDate(a[..i])
    modifies a
    ensures SortedByDate(a[..i + 1])
    ensures multiset(a[..]) == multiset(old(a[..]))
  {
    var j := i;
    while j > 0 && Day(a[j - 1]) > Day(a[j])
      invariant 0 <= j <= i
      invariant forall p, q :: 0 <= p < q <= i && p != j && q != j ==> Day(a[p]) <= Day(a[q])
      invariant forall q :: j < q <= i ==> Day(a[j]) < Day(a[q])
      invariant multiset(a[..]) == multiset(old(a[..]))
    {
      SwapWithNext(a, j - 1);
      j := j - 1;
    }
  }

  /** Exchanges two neighbouring records, keeping the same records. */
  method SwapWithNext(a: array<Spec>, k: nat)
    requires k + 1 < a.Length
    modifies a
    ensures a[k] == old(a[k + 1]) && a[k + 1] == old(a[k])
    ensures forall p :: 0 <= p < a.Length && p != k && p != k + 1 ==> a[p] == old(a[p])
    ensures multiset(a[..]) == multiset(old(a[..]))
  {
    SwapKeepsRecords(a[..], k);
    a[k], a[k + 1] := a[k + 1], a[k];
    assert a[..] == old(a[..])[k := old(a[k + 1])][k + 1 := old(a[k])];
  }

  /** Exchanging two neighbours keeps the same records. */
  lemma SwapKeepsRecords(s: seq<Spec>, k: nat)
    requires k + 1 < |s|
    ensures multiset(s[k := s[k + 1]][k + 1 := s[k]]) == multiset(s)
  {
    var t := s[k := s[k + 1]][k + 1 := s[k]];
    var pre, post := s[..k], s[k + 2..];
    assert s == pre + ([s[k]] + [s[k + 1]]) + post;
    assert t == pre + ([s[k + 1]] + [s[k]]) + post;
    assert multiset([s[k]] + [s[k + 1]]) == multiset([s[k + 1]] + [s[k]]);
  }

  /** The variables of the forward pass. */
  datatype PassState = PassState(foundFirstPass: bool, rejectedCount: nat, firstSpec: Spec)

  const StartState: PassState := PassState(false, 0, ZeroSpec)

  /**
   * One iteration of the pass. The first approval becomes the issue's record,
   * carrying the rejections counted so far; each later approval adds its week
   * label; every approval restarts the rejection counter and every rejection
   * bumps it.
   */
  function Step(st: PassState, value: Spec): (r: PassState)
    ensures r.foundFirstPass == (st.foundFirstPass || value.eventType == Approved)
    ensures r.rejectedCount == (if value.eventType == Approved then 0 else st.rejectedCount + 1)
    ensures !st.foundFirstPass && value.eventType == Approved ==>
              r.firstSpec == value.(rejections := st.rejectedCount)
    ensures st.foundFirstPass || value.eventType == Rejected ==>
              r.firstSpec == st.firstSpec.(laterApprovals := r.firstSpec.laterApprovals) &&
              st.firstSpec.laterApprovals <= r.firstSpec.laterApprovals
  {
    match value.eventType
    case Approved =>
      if !st.foundFirstPass then
        PassState(true, 0, value.(rejections := st.rejectedCount))
      else
        PassState(true, 0, st.firstSpec.(laterApprovals := st.firstSpec.laterApprovals + [Label(value.week)]))
    case Rejected =>
      st.(rejectedCount := st.rejectedCount + 1)
  }

  /** The state after the pass has visited every record of `xs` in order. */
  function Scan(xs: seq<Spec>): (r: PassState)
    ensures r.foundFirstPass <==> CountKind(xs, Approved) > 0
    ensures !r.foundFirstPass ==> r == PassState(false, |xs|, ZeroSpec)
  {
    if xs == [] then StartState
    else Step(Scan(xs[..|xs| - 1]), xs[|xs| - 1])
  }

  /** The forward pass over a sorted list, as a loop over its records. */
  method FirstApprovalPass(specArray: array<Spec>) returns (firstSpec: Spec)
    ensures firstSpec == Scan(specArray[..]).firstSpec
  {
    var foundFirstPass := false;
    var rejectedCount := 0;
    firstSpec := ZeroSpec;
    var n := 0;
    while n < specArray.Length
      invariant 0 <= n <= specArray.Length
      invariant Scan(specArray[..n]) == PassState(foundFirstPass, rejectedCount, firstSpec)
    {
      var value := specArray[n];
      assert specArray[..n + 1][..n] == specArray[..n];
      match value.eventType {
        case Approved =>
          if !foundFirstPass {
            foundFirstPass := true;
            value := value.(rejections := rejectedCount);
            firstSpec := value;
          } else {
            firstSpec := firstSpec.(laterApprovals := firstSpec.laterApprovals + [Label(value.week)]);
          }
          rejectedCount := 0;
        case Rejected =>
          rejectedCount := rejectedCount + 1;
      }
      n := n + 1;
    }
    assert specArray[..n] == specArray[..];
  }

  /** The index of the first approval, if there is one. */
  function FirstApproved(xs: seq<Spec>): (r: Option<nat>)
    ensures r.Some? ==> r.value < |xs| && xs[r.value].eventType == Approved
    ensures r.Some? ==> forall j :: 0 <= j < r.value ==> xs[j].eventType == Rejected
    ensures r.None? ==> forall j :: 0 <= j < |xs| ==> xs[j].eventType == Rejected
  {
    if xs == [] then None
    else
      var pre := xs[..|xs| - 1];
      var r := FirstApproved(pre);
      assert forall j :: 0 <= j < |pre| ==> pre[j] == xs[j];
      if r.Some? then r
      else if xs[|xs| - 1].eventType.Approved? then Some(|xs| - 1)
      else None
  }

  /** The number of records of the given kind. */
  function CountKind(xs: seq<Spec>, kind: EventType): nat
  {
    if xs == [] then 0
    else CountKind(xs[..|xs| - 1], kind) + (if xs[|xs| - 1].eventType == kind then 1 else 0)
  }

  /** The week labels of the approvals in `xs`, in order. */
  function ApprovalLabels(xs: seq<Spec>): seq<string>
  {
    if xs == [] then []
    else
      var x := xs[|xs| - 1];
      ApprovalLabels(xs[..|xs| - 1]) + (if x.eventType == Approved then [Label(x.week)] else [])
  }

  /** The record the pass reports for an issue whose first approval is at index i. */
  function FirstApprovalRecord(xs: seq<Spec>, i: nat): Spec
    requires i < |xs|
  {
    xs[i].(rejections := CountKind(xs[..i], Rejected),
           laterApprovals := xs[i].laterApprovals + ApprovalLabels(xs[i + 1..]))
  }

  /**
   * What the pass computes. Without an approval the record stays the zero
   * value and every record was a rejection. Otherwise the record is the first
   * approval, carrying the number of rejections before it and the labels of
   * every approval after it, in order.
   */
  lemma {:induction false} ScanResult(xs: seq<Spec>)
    ensures FirstApproved(xs).None? ==> Scan(xs) == PassState(false, |xs|, ZeroSpec)
    ensures FirstApproved(xs).Some? ==>
              Scan(xs).foundFirstPass && Scan(xs).firstSpec == FirstApprovalRecord(xs, FirstApproved(xs).value)
  {
    if xs != [] {
      var pre := xs[..|xs| - 1];
      var x := xs[|xs| - 1];
      ScanResult(pre);
      assert pre + [x] == xs;
      match FirstApproved(pre)
      case Some(i) =>
        assert ApprovalLabels([x]) == if x.eventType == Approved then [Label(x.week)] else [] by {
          assert [x][..0] == [];
        }
        RecordExtended(pre, [x], i);
      case None =>
        if x.eventType == Approved {
          assert xs[..|xs| - 1] == pre;
          assert xs[|xs|..] == [];
          assert CountKind(pre, Rejected) == |pre| by { AllRejectedCount(pre); }
        }
    }
  }

  /** In a list of rejections only, every record is counted as one. */
  lemma {:induction false} AllRejectedCount(xs: seq<Spec>)
    requires forall j :: 0 <= j < |xs| ==> xs[j].eventType == Rejected
    ensures CountKind(xs, Rejected) == |xs| && CountKind(xs, Approved) == 0
  {
    if xs != [] {
      AllRejectedCount(xs[..|xs| - 1]);
    }
  }

  /** Counting distributes over concatenation. */
  lemma {:induction false} CountKindConcat(xs: seq<Spec>, ys: seq<Spec>, kind: EventType)
    ensures CountKind(xs + ys, kind) == CountKind(xs, kind) + CountKind(ys, kind)
  {
    if ys == [] {
      assert xs + ys == xs;
    } else {
      CountKindConcat(xs, ys[..|ys| - 1], kind);
      assert (xs + ys)[..|xs + ys| - 1] == xs + ys[..|ys| - 1];
    }
  }

  /** One label per approval. */
  lemma {:induction false} ApprovalLabelsCount(xs: seq<Spec>)
    ensures |ApprovalLabels(xs)| == CountKind(xs, Approved)
  {
    if xs != [] {
      ApprovalLabelsCount(xs[..|xs| - 1]);
    }
  }

  /**
   * The counts the report prints: the rejections before the first approval are
   * exactly the records before it (all of them rejections), and there is one
   * later label per approval other than the first.
   */
  lemma PassCounts(xs: seq<Spec>)
    requires FirstApproved(xs).Some?
    ensures Scan(xs).firstSpec.rejections == FirstApproved(xs).value
    ensures Scan(xs).firstSpec.rejections == CountKind(xs[..FirstApproved(xs).value], Rejected)
    ensures |Scan(xs).firstSpec.laterApprovals| ==
            |xs[FirstApproved(xs).value].laterApprovals| + CountKind(xs, Approved) - 1
  {
    var i := FirstApproved(xs).value;
    ScanResult(xs);
    assert CountKind(xs[..i], Rejected) == i && CountKind(xs[..i], Approved) == 0 by {
      AllRejectedCount(xs[..i]);
    }
    assert |ApprovalLabels(xs[i + 1..])| == CountKind(xs[i + 1..], Approved) by {
      ApprovalLabelsCount(xs[i + 1..]);
    }
    CountKindSplit(xs, i, Approved);
  }

  /** Counting around index i: before it, at it, after it. */
  lemma CountKindSplit(xs: seq<Spec>, i: nat, kind: EventType)
    requires i < |xs|
    ensures CountKind(xs, kind) ==
            CountKind(xs[..i], kind) + (if xs[i].eventType == kind then 1 else 0) + CountKind(xs[i + 1..], kind)
  {
    assert xs == xs[..i] + [xs[i]] + xs[i + 1..];
    CountKindConcat(xs[..i] + [xs[i]], xs[i + 1..], kind);
    CountKindConcat(xs[..i], [xs[i]], kind);
    assert CountKind([xs[i]], kind) == if xs[i].eventType == kind then 1 else 0 by {
      assert [xs[i]][..0] == [];
    }
  }

  /** The first approval is where the source says it is: the approved record with nothing but rejections before it. */
  lemma FirstApprovedAt(xs: seq<Spec>, i: nat)
    requires i < |xs| && xs[i].eventType == Approved
    requires forall j :: 0 <= j < i ==> xs[j].eventType == Rejected
    ensures FirstApproved(xs) == Some(i)
  {
  }

  /**
   * Whatever follows an issue's first approval — rejections or approvals —
   * leaves its record alone except for appending the later approvals' labels;
   * in particular later rejections never change its rejection count.
   */
  lemma EventsAfterFirstApproval(xs: seq<Spec>, ys: seq<Spec>)
    requires FirstApproved(xs).Some?
    ensures FirstApproved(xs + ys) == FirstApproved(xs)
    ensures Scan(xs + ys).firstSpec ==
            Scan(xs).firstSpec.(laterApprovals := Scan(xs).firstSpec.laterApprovals + ApprovalLabels(ys))
  {
    var i := FirstApproved(xs).value;
    FirstApprovedExtended(xs, ys);
    ScanResult(xs);
    ScanResult(xs + ys);
    RecordExtended(xs, ys, i);
  }

  /** Records appended after the first approval do not move it. */
  lemma FirstApprovedExtended(xs: seq<Spec>, ys: seq<Spec>)
    requires FirstApproved(xs).Some?
    ensures FirstApproved(xs + ys) == FirstApproved(xs)
  {
    var i := FirstApproved(xs).value;
    assert forall j :: 0 <= j <= i ==> (xs + ys)[j] == xs[j];
    FirstApprovedAt(xs + ys, i);
  }

  /** The first-approval record at index i only gains the labels of appended approvals. */
  lemma RecordExtended(xs: seq<Spec>, ys: seq<Spec>, i: nat)
    requires i < |xs|
    ensures FirstApprovalRecord(xs + ys, i) ==
            FirstApprovalRecord(xs, i).(laterApprovals := FirstApprovalRecord(xs, i).laterApprovals + ApprovalLabels(ys))
  {
    var zs := xs + ys;
    LaterLabelsExtended(xs, ys, i);
    assert zs[..i] == xs[..i];
    assert zs[i] == xs[i];
  }

  /** The labels after index i, once more records are appended. */
  lemma LaterLabelsExtended(xs: seq<Spec>, ys: seq<Spec>, i: nat)
    requires i < |xs|
    ensures ApprovalLabels((xs + ys)[i + 1..]) == ApprovalLabels(xs[i + 1..]) + ApprovalLabels(ys)
  {
    assert (xs + ys)[i + 1..] == xs[i + 1..] + ys;
    ApprovalLabelsConcat(xs[i + 1..], ys);
  }

  /** Labels distribute over concatenation. */
  lemma {:induction false} ApprovalLabelsConcat(xs: seq<Spec>, ys: seq<Spec>)
    ensures ApprovalLabels(xs + ys) == ApprovalLabels(xs) + ApprovalLabels(ys)
  {
    if ys == [] {
      assert xs + ys == xs;
    } else {
      ApprovalLabelsConcat(xs, ys[..|ys| - 1]);
      assert (xs + ys)[..|xs + ys| - 1] == xs + ys[..|ys| - 1];
    }
  }

  /**
   * On a date-sorted list the first approval is an earliest approval: no
   * approval is dated before it, every rejection dated before it is counted,
   * and every counted rejection is dated no later than it.
   */
  lemma FirstApprovalIsEarliest(xs: seq<Spec>)
    requires SortedByDate(xs) && FirstApproved(xs).Some?
    ensures Scan(xs).firstSpec.rejections < |xs|
    ensures forall j :: 0 <= j < |xs| && xs[j].eventType == Approved ==>
              Day(Scan(xs).firstSpec) <= Day(xs[j])
    ensures forall j :: 0 <= j < |xs| && xs[j].eventType == Rejected && Day(xs[j]) < Day(Scan(xs).firstSpec) ==>
              j < Scan(xs).firstSpec.rejections
    ensures forall j :: 0 <= j < Scan(xs).firstSpec.rejections ==>
              xs[j].eventType == Rejected && Day(xs[j]) <= Day(Scan(xs).firstSpec)
  {
    var i := FirstApproved(xs).value;
    PassCounts(xs);
    ScanResult(xs);
    assert Day(Scan(xs).firstSpec) == Day(xs[i]);
    EarliestAt(xs, i);
  }

  /** The date facts behind FirstApprovalIsEarliest, stated at the first approval's index. */
  lemma EarliestAt(xs: seq<Spec>, i: nat)
    requires SortedByDate(xs) && FirstApproved(xs) == Some(i)
    ensures forall j :: 0 <= j < |xs| && xs[j].eventType == Approved ==> Day(xs[i]) <= Day(xs[j])
    ensures forall j :: 0 <= j < |xs| && Day(xs[j]) < Day(xs[i]) ==> j < i
    ensures forall j :: 0 <= j < i ==> Day(xs[j]) <= Day(xs[i])
  {
    forall j | 0 <= j < |xs| && xs[j].eventType == Approved
      ensures Day(xs[i]) <= Day(xs[j])
    {
      assert i <= j;
    }
  }

  /** Counts depend only on which records there are, not on their order. */
  lemma {:induction false} CountKindPermutation(a: seq<Spec>, b: seq<Spec>, kind: EventType)
    requires multiset(a) == multiset(b)
    ensures CountKind(a, kind) == CountKind(b, kind)
    decreases |a|
  {
    if a == [] {
      assert |b| == |multiset(b)| == 0;
    } else {
      var k := MatchLast(a, b);
      var a', b' := a[..|a| - 1], b[..k] + b[k + 1..];
      CountKindPermutation(a', b', kind);
      CountKindRemove(b, k, kind);
      CountKindRemove(a, |a| - 1, kind);
      assert a[..|a| - 1] + a[|a|..] == a';
    }
  }

  /**
   * In two lists holding the same records, the last record of the first sits
   * at some index k of the second, and the rest of both still hold the same records.
   */
  lemma MatchLast(a: seq<Spec>, b: seq<Spec>) returns (k: nat)
    requires a != [] && multiset(a) == multiset(b)
    ensures k < |b| && b[k] == a[|a| - 1]
    ensures multiset(a[..|a| - 1]) == multiset(b[..k] + b[k + 1..])
  {
    var x := a[|a| - 1];
    assert x in multiset(b);
    k :| 0 <= k < |b| && b[k] == x;
    RemoveOne(b, k);
    RemoveOne(a, |a| - 1);
    assert a[..|a| - 1] + a[|a|..] == a[..|a| - 1];
  }

  /** Taking out the record at index k lowers its kind's count by one. */
  lemma CountKindRemove(b: seq<Spec>, k: nat, kind: EventType)
    requires k < |b|
    ensures CountKind(b, kind) == CountKind(b[..k] + b[k + 1..], kind) + (if b[k].eventType == kind then 1 else 0)
  {
    CountKindSplit(b, k, kind);
    CountKindConcat(b[..k], b[k + 1..], kind);
  }

  /** Taking out the record at index k takes exactly one copy of it out of the multiset. */
  lemma RemoveOne(b: seq<Spec>, k: nat)
    requires k < |b|
    ensures multiset(b[..k] + b[k + 1..]) == multiset(b) - multiset{b[k]}
  {
    assert b == b[..k] + [b[k]] + b[k + 1..];
    assert multiset(b) == multiset(b[..k]) + multiset{b[k]} + multiset(b[k + 1..]);
  }

  /** An issue without any approval: every record is a rejection, so there is no approval to count. */
  lemma NoApprovalMeansNone(xs: seq<Spec>)
    ensures FirstApproved(xs).None? <==> CountKind(xs, Approved) == 0
  {
    if FirstApproved(xs).None? {
      AllRejectedCount(xs);
    } else {
      PassCounts(xs);
    }
  }

  /** One output row per issue; the later weeks are joined with ":" when printed. */
  datatype Summary = Summary(
    specType: string,
    issue: string,
    status: string,
    bu: string,
    product: string,
    year: int,
    week: nat,
    laterCount: nat,
    laterWeeks: seq<string>,
    latencyDays: int,
    rejections: nat)

  /** The row printed for the record the pass settled on. */
  function SummaryOf(first: Spec): (r: Summary)
    ensures r.laterCount == |r.laterWeeks| && r.laterWeeks == first.laterApprovals
    ensures r.issue == first.issue && r.year == first.eventDate.year && r.rejections == first.rejections
    ensures -MaxDurationDays <= r.latencyDays <= MaxDurationDays
    ensures r.latencyDays > 0 <==> DayNumber(first.created) < DayNumber(first.eventDate)
  {
    Summary(first.specType, first.issue, first.status, first.bu, first.product,
            first.eventDate.year, first.week, |first.laterApprovals|, first.laterApprovals,
            LatencyDays(first.eventDate, first.created), first.rejections)
  }

  /** The row of an issue with no approval: the zero record, with every count zero. */
  const ZeroRow: Summary := Summary("", "", "", "", "", 1, 0, 0, [], 0, 0)

  /**
   * An issue whose records hold no approval still gets a row: the zero
   * record's, dated in year 1 with week, counts and latency all zero.
   */
  lemma NoApprovalRow(xs: seq<Spec>)
    requires CountKind(xs, Approved) == 0
    ensures SummaryOf(Scan(xs).firstSpec) == ZeroRow
  {
    NoApprovalMeansNone(xs);
    ScanResult(xs);
  }

  /** The records ingestion files under one issue. */
  predicate Ingested(events: seq<Spec>)
  {
    forall e :: e in events ==>
      e.eventDate.year == TargetYear && ValidDate(e.eventDate) && e.laterApprovals == [] && e.rejections == 0
  }

  /**
   * The lists a table filled from empty holds are ingested records, so every
   * issue of the report meets the requirement of IssueRow.
   */
  lemma IngestedLists(parse: DateParser, rows: seq<Row>, k: string)
    requires RowsWellFormed(parse, rows)
    ensures Ingested(ListOf(Grouped(map[], RowsSpecs(parse, rows)), k))
  {
    var xs := RowsSpecs(parse, rows);
    GroupedByIssue(map[], xs, k);
    assert ListOf(Grouped(map[], xs), k) == IssueEvents(xs, k);
  }

  /**
   * Sorting by date also sorts by year: among parsed dates, a record of a
   * later year never precedes one of an earlier year.
   */
  lemma SortedByYear(xs: seq<Spec>)
    requires SortedByDate(xs)
    requires forall e :: e in xs ==> ValidDate(e.eventDate)
    ensures forall i, j :: 0 <= i < j < |xs| ==> xs[i].eventDate.year <= xs[j].eventDate.year
  {
    forall i, j | 0 <= i < j < |xs|
      ensures xs[i].eventDate.year <= xs[j].eventDate.year
    {
      if xs[j].eventDate.year < xs[i].eventDate.year {
        YearsAreOrdered(xs[j].eventDate, xs[i].eventDate);
      }
    }
  }

  /**
   * The row of an issue with at least one approval, whichever order sort.Slice
   * leaves records with equal dates in: it is dated in the target year, lists
   * one later week per approval other than the first, takes its date from an
   * approval no other approval precedes, counts exactly the records (all
   * rejections) that the sort placed before that approval, and reports the
   * latency between that approval and the issue's creation.
   */
  lemma IssueRow(events: seq<Spec>, sorted: seq<Spec>)
    requires Ingested(events)
    requires SortedByDate(sorted) && multiset(sorted) == multiset(events)
    requires CountKind(events, Approved) >= 1
    ensures FirstApproved(sorted).Some?
    ensures var row := SummaryOf(Scan(sorted).firstSpec);
            var i := FirstApproved(sorted).value;
            && row.year == TargetYear
            && row.laterCount == CountKind(events, Approved) - 1
            && row.rejections == i
            && (forall j :: 0 <= j < i ==> sorted[j].eventType == Rejected)
            && (forall e :: e in events && e.eventType == Approved ==> Day(sorted[i]) <= Day(e))
            && Scan(sorted).firstSpec.eventDate == sorted[i].eventDate
            && sorted[i] in events && sorted[i].eventType == Approved
            && row.latencyDays == LatencyDays(sorted[i].eventDate, sorted[i].created)
  {
    CountKindPermutation(sorted, events, Approved);
    NoApprovalMeansNone(sorted);
    var i := FirstApproved(sorted).value;
    ScanResult(sorted);
    PassCounts(sorted);
    FirstApprovalIsEarliest(sorted);
    assert sorted[i] in multiset(events);
    assert sorted[i].laterApprovals == [];
    forall e | e in events && e.eventType == Approved
      ensures Day(sorted[i]) <= Day(e)
    {
      assert e in multiset(sorted);
      var j :| 0 <= j < |sorted| && sorted[j] == e;
    }
  }

  /**
   * One issue's list: sorted in place by event date, then reduced by the
   * forward pass to the row that is printed.
   */
  method ReconstructIssue(specArray: array<Spec>) returns (row: Summary)
    modifies specArray
    ensures SortedByDate(specArray[..])
    ensures multiset(specArray[..]) == multiset(old(specArray[..]))
    ensures row == SummaryOf(Scan(specArray[..]).firstSpec)
  {
    SortByDate(specArray);
    var firstSpec := FirstApprovalPass(specArray);
    var latency := LatencyDays(firstSpec.eventDate, firstSpec.created);
    row := Summary(firstSpec.specType, firstSpec.issue, firstSpec.status, firstSpec.bu, firstSpec.product,
                   firstSpec.eventDate.year, firstSpec.week, |firstSpec.laterApprovals|, firstSpec.laterApprovals,
                   latency, firstSpec.rejections);
  }

  /**
   * The report: every issue's list is sorted in place inside the map and
   * reduced to its row. Rows are keyed by issue, since the order in which the
   * map is walked is unspecified.
   */
  method Report(table: SpecTable) returns (rows: map<string, Summary>)
    modifies table
    ensures table.specs.Keys == old(table.specs).Keys
    ensures rows.Keys == table.specs.Keys
    ensures forall k :: k in table.specs ==>
              SortedByDate(table.specs[k]) &&
              multiset(table.specs[k]) == multiset(old(table.specs)[k]) &&
              rows[k] == SummaryOf(Scan(table.specs[k]).firstSpec)
  {
    rows := map[];
    var pending := table.specs.Keys;
    while pending != {}
      invariant pending <= table.specs.Keys == old(table.specs).Keys
      invariant rows.Keys == table.specs.Keys - pending
      invariant forall k :: k in pending ==> table.specs[k] == old(table.specs)[k]
      invariant forall k :: k in rows ==>
                  SortedByDate(table.specs[k]) &&
                  multiset(table.specs[k]) == multiset(old(table.specs)[k]) &&
                  rows[k] == SummaryOf(Scan(table.specs[k]).firstSpec)
      decreases pending
    {
      var k :| k in pending;
      var events := table.specs[k];
      var specArray := new Spec[|events|](j requires 0 <= j < |events| => events[j]);
      assert specArray[..] == events;
      var row := ReconstructIssue(specArray);
      table.specs := table.specs[k := specArray[..]];
      rows := rows[k := row];
      pending := pending - {k};
    }
  }

  /**
   * A worked issue created on 1 December 2021: rejected on 1 and 5 January
   * 2022, approved on 10 January in week 2, rejected again on 16 January and
   * approved again on 15 February in week 7. Its row shows week 2 of 2022, one
   * later approval labelled "W7", 40 days of latency and two rejections.
   */
  lemma WorkedExample()
    ensures var created := Date(738124, 2021);
            var r1 := Spec(Rejected, "T", "I-1", "S", "B", "P", Date(738155, 2022), created, 1, [], 0);
            var r2 := Spec(Rejected, "T", "I-1", "S", "B", "P", Date(738159, 2022), created, 1, [], 0);
            var a1 := Spec(Approved, "T", "I-1", "S", "B", "P", Date(738164, 2022), created, 2, [], 0);
            var r3 := Spec(Rejected, "T", "I-1", "S", "B", "P", Date(738170, 2022), created, 3, [], 0);
            var a2 := Spec(Approved, "T", "I-1", "S", "B", "P", Date(738200, 2022), created, 7, [], 0);
            SummaryOf(Scan([r1, r2, a1, r3, a2]).firstSpec) ==
            Summary("T", "I-1", "S", "B", "P", 2022, 2, 1, ["W7"], 40, 2)
  {
    var created := Date(738124, 2021);
    var r1 := Spec(Rejected, "T", "I-1", "S", "B", "P", Date(738155, 2022), created, 1, [], 0);
    var r2 := Spec(Rejected, "T", "I-1", "S", "B", "P", Date(738159, 2022), created, 1, [], 0);
    var a1 := Spec(Approved, "T", "I-1", "S", "B", "P", Date(738164, 2022), created, 2, [], 0);
    var r3 := Spec(Rejected, "T", "I-1", "S", "B", "P", Date(738170, 2022), created, 3, [], 0);
    var a2 := Spec(Approved, "T", "I-1", "S", "B", "P", Date(738200, 2022), created, 7, [], 0);
    var xs := [r1, r2, a1, r3, a2];
    assert FirstApproved(xs) == Some(2) by {
      FirstApprovedAt(xs, 2);
    }
    ScanResult(xs);
    assert xs[..2] == [r1, r2] && xs[3..] == [r3, a2];
    assert CountKind([r1, r2], Rejected) == 2 by {
      AllRejectedCount([r1, r2]);
    }
    assert ApprovalLabels([r3]) == [] by {
      assert [r3][..0] == [];
    }
    assert ApprovalLabels([r3, a2]) == [Label(7)] by {
      assert [r3, a2][..1] == [r3];
    }
    assert Label(7) == "W7";
  }
}
