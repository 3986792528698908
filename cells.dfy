/**
 * One CSV cell turned into (at most) one event record: which marker the cell
 * carries, and which week its first line names.
 */
module Cells {
  import opened Wrappers
  import opened Calendar
  import opened Text

  /** The kind of a workflow notice; Approved is Go's zero value for the type. */
  datatype EventType = Approved | Rejected

  /**
   * The per-event record. Every field of the source's record is here; the last
   * two are filled in only on the record chosen as an issue's first approval.
   */
  datatype Spec = Spec(
    eventType: EventType,
    specType: string,
    issue: string,
    status: string,
    bu: string,
    product: string,
    eventDate: Date,
    created: Date,
    week: nat,
    laterApprovals: seq<string>,
    rejections: nat)

  /** The record's zero value: what an issue without any approval reports. */
  const ZeroSpec: Spec := Spec(Approved, "", "", "", "", "", ZeroTime, ZeroTime, 0, [], 0)

  const ApprovedMarker: string := "Approved in"
  const RejectedMarker: string := "Rejected in"

  /**
   * The event a cell announces: Approved when the approval marker occurs
   * anywhere in it (whatever else it holds), Rejected when only the rejection
   * marker does, and no event when neither does.
   */
  function Classify(cell: string): (r: Option<EventType>)
    ensures r == Some(Approved) <==> exists i: nat :: OccursAt(cell, ApprovedMarker, i)
    ensures r == Some(Rejected) <==>
              (exists i: nat :: OccursAt(cell, RejectedMarker, i)) &&
              !(exists i: nat :: OccursAt(cell, ApprovedMarker, i))
    ensures r == None <==>
              !(exists i: nat :: OccursAt(cell, ApprovedMarker, i)) &&
              !(exists i: nat :: OccursAt(cell, RejectedMarker, i))
  {
    if Contains(cell, ApprovedMarker) || Contains(cell, RejectedMarker) then
      if Contains(cell, ApprovedMarker) then Some(Approved) else Some(Rejected)
    else None
  }

  /** The first line of a cell: strings.Split(cell, "\n")[0]. */
  function FirstLine(cell: string): string
  {
    FirstField(cell, '\n')
  }

  /** The text the event date is parsed from: the first space-separated word of the first line. */
  function DateToken(cell: string): string
  {
    FirstField(FirstLine(cell), ' ')
  }

  /** The pattern `W(\d)+` matches `s` starting at index `i`. */
  predicate WeekAt(s: string, i: int)
  {
    0 <= i && i + 1 < |s| && s[i] == 'W' && IsDigit(s[i + 1])
  }

  predicate HasWeek(s: string)
  {
    exists i :: 0 <= i < |s| && WeekAt(s, i)
  }

  /** The leftmost match of `W(\d)+` at or after `from`, if any. */
  function FirstWeekAt(s: string, from: nat): (r: Option<nat>)
    ensures r.Some? ==> from <= r.value && WeekAt(s, r.value)
    ensures r.Some? ==> forall j :: from <= j < r.value ==> !WeekAt(s, j)
    ensures r.None? ==> forall j :: from <= j ==> !WeekAt(s, j)
    decreases |s| - from
  {
    if from + 1 >= |s| then None
    else if WeekAt(s, from) then Some(from)
    else FirstWeekAt(s, from + 1)
  }

  /** The end of the maximal run of digits starting at `j`. */
  function DigitsEnd(s: string, j: nat): (k: nat)
    requires j <= |s|
    ensures j <= k <= |s|
    ensures forall p :: j <= p < k ==> IsDigit(s[p])
    ensures k == |s| || !IsDigit(s[k])
    decreases |s| - j
  {
    if j < |s| && IsDigit(s[j]) then DigitsEnd(s, j + 1) else j
  }

  /**
   * The week number of a line: the digits of the leftmost `W(\d)+` match
   * (the regular expression's repetition is greedy, so the whole run of
   * digits), read as a decimal int.
   */
  function Week(line: string): (w: nat)
    requires HasWeek(line)
    ensures w <= MaxInt
    ensures var i := FirstWeekAt(line, 0).value;
            var k := DigitsEnd(line, i + 1);
            i + 1 < k && (DecimalValue(line[i + 1..k]) <= MaxInt ==> w == DecimalValue(line[i + 1..k]))
  {
    var i := FirstWeekAt(line, 0).value;
    var k := DigitsEnd(line, i + 1);
    Atoi(line[i + 1..k])
  }

  /**
   * The match-and-convert of a cell's first line, written as a left-to-right
   * scan: skip to the first `W` followed by a digit, then accumulate digits.
   */
  method ScanWeek(line: string) returns (week: nat)
    requires HasWeek(line)
    ensures week == Week(line)
    ensures week <= MaxInt
  {
    ghost var first := FirstWeekAt(line, 0).value;
    var i := 0;
    while !(i + 1 < |line| && line[i] == 'W' && IsDigit(line[i + 1]))
      invariant i <= first
      decreases first - i
    {
      i := i + 1;
    }
    assert WeekAt(line, i);
    assert i == first;
    var k := i + 1;
    var v := 0;
    while k < |line| && IsDigit(line[k])
      invariant i + 1 <= k <= |line|
      invariant forall p :: i + 1 <= p < k ==> IsDigit(line[p])
      invariant v == DecimalValue(line[i + 1..k])
    {
      assert line[i + 1..k + 1][..k - i - 1] == line[i + 1..k];
      v := v * 10 + DigitValue(line[k]);
      k := k + 1;
    }
    assert k == DigitsEnd(line, i + 1);
    week := if v > MaxInt then MaxInt else v;
  }

  /** The label a later approval is listed under: "W" + strconv.Itoa(week). */
  function Label(week: nat): (r: string)
    ensures |r| >= 2 && r[0] == 'W' && AllDigits(r[1..])
  {
    "W" + DecimalString(week)
  }

  /** A later-approval label names its week: extracting the week from it gives it back. */
  lemma LabelNamesWeek(week: nat)
    requires week <= MaxInt
    ensures HasWeek(Label(week)) && Week(Label(week)) == week
  {
    var s := Label(week);
    assert WeekAt(s, 0);
    assert FirstWeekAt(s, 0) == Some(0);
    assert DigitsEnd(s, 1) == |s|;
    assert s[1..|s|] == DecimalString(week);
    DecimalRoundTrip(week);
  }
}
