/**
 * Ingestion: every cell of every row is classified; events dated in the target
 * year become records, appended under their issue key to a map of lists.
 */
module Grouping {
  import opened Wrappers
  import opened Calendar
  import opened Text
  import opened Cells

  /** Only events dated in this year are kept. */
  const TargetYear: int := 2022

  /**
   * The fixed columns of a row that end up in its records: issue (column 1),
   * status (4), business unit (604), product (629), spec type (1096) and the
   * raw creation-date text (20). They are taken as already extracted.
   */
  datatype RowMeta = RowMeta(
    issue: string,
    status: string,
    bu: string,
    product: string,
    specType: string,
    createdText: string)

  /** A CSV row: all of its cells, plus the view of its fixed columns. */
  datatype Row = Row(cells: seq<string>, meta: RowMeta)

  /**
   * time.Parse with layout "02/Jan/06", supplied by the caller; None is a parse
   * error. A parsed date is a calendar date, whose year is the one Go's Year()
   * reports for it.
   */
  type DateParser = string -> Option<CalendarDate>

  /** A parse error is reported and ignored, leaving the zero time. */
  function ParsedOrZero(parse: DateParser, text: string): (d: Date)
    ensures ValidDate(d)
    ensures parse(text).Some? ==> d == parse(text).value
    ensures parse(text).None? ==> d == ZeroTime && d.year == 1
  {
    match parse(text)
    case Some(d) => d
    case None => ZeroTime
  }

  /** The date of the event a cell announces. */
  function EventDate(parse: DateParser, cell: string): Date
  {
    ParsedOrZero(parse, DateToken(cell))
  }

  /** The issue's creation date: the first space-separated word of column 20. */
  function CreatedDate(parse: DateParser, meta: RowMeta): Date
  {
    ParsedOrZero(parse, FirstField(meta.createdText, ' '))
  }

  /** A cell yields a record: it carries a marker and its date falls in the target year. */
  predicate Kept(parse: DateParser, cell: string)
    ensures Kept(parse, cell) ==> Classify(cell).Some? && parse(DateToken(cell)).Some?
  {
    Classify(cell).Some? && EventDate(parse, cell).year == TargetYear
  }

  /**
   * A kept cell names a week on its first line; the source slices the empty
   * match and panics otherwise, so this is what it demands of its input.
   */
  predicate CellWellFormed(parse: DateParser, cell: string)
  {
    Kept(parse, cell) ==> HasWeek(FirstLine(cell))
  }

  predicate CellsWellFormed(parse: DateParser, cells: seq<string>)
  {
    forall c :: c in cells ==> CellWellFormed(parse, c)
  }

  predicate RowsWellFormed(parse: DateParser, rows: seq<Row>)
  {
    forall r :: r in rows ==> CellsWellFormed(parse, r.cells)
  }

  /**
   * A cell whose date fails to parse is dated at the zero time, in year 1, so
   * it is dropped without a trace beyond the diagnostic line.
   */
  lemma UnparsedEventDropped(parse: DateParser, cell: string)
    requires parse(DateToken(cell)).None?
    ensures EventDate(parse, cell) == ZeroTime && !Kept(parse, cell)
  {
  }

  /** The record built from a kept cell and its row's fixed columns. */
  function CellSpec(parse: DateParser, meta: RowMeta, cell: string): (s: Spec)
    requires Kept(parse, cell) && CellWellFormed(parse, cell)
    ensures s.eventDate.year == TargetYear && s.issue == meta.issue
    ensures Some(s.eventType) == Classify(cell)
    ensures s.laterApprovals == [] && s.rejections == 0
    ensures ValidDate(s.eventDate) && ValidDate(s.created)
  {
    Spec(Classify(cell).value, meta.specType, meta.issue, meta.status, meta.bu, meta.product,
         EventDate(parse, cell), CreatedDate(parse, meta), Week(FirstLine(cell)), [], 0)
  }

  /**
   * The records the cells of one row yield, in cell order: at most one per
   * cell, each dated in the target year, carrying the row's issue and not yet
   * holding later approvals or rejections.
   */
  function CellsSpecs(parse: DateParser, meta: RowMeta, cells: seq<string>): (r: seq<Spec>)
    requires CellsWellFormed(parse, cells)
    ensures |r| <= |cells|
    ensures forall s :: s in r ==>
              s.eventDate.year == TargetYear && ValidDate(s.eventDate) && s.issue == meta.issue &&
              s.laterApprovals == [] && s.rejections == 0
  {
    if cells == [] then []
    else
      var c := cells[|cells| - 1];
      CellsSpecs(parse, meta, cells[..|cells| - 1]) + (if Kept(parse, c) then [CellSpec(parse, meta, c)] else [])
  }

  /**
   * The records all rows yield, in encounter order. The year filter keeps only
   * target-year records, so none comes from a cell whose date failed to parse
   * (the zero time is in year 1).
   */
  function RowsSpecs(parse: DateParser, rows: seq<Row>): (r: seq<Spec>)
    requires RowsWellFormed(parse, rows)
    ensures forall s :: s in r ==>
              s.eventDate.year == TargetYear && ValidDate(s.eventDate) && s.eventDate != ZeroTime &&
              s.laterApprovals == [] && s.rejections == 0
  {
    if rows == [] then []
    else
      var r := rows[|rows| - 1];
      RowsSpecs(parse, rows[..|rows| - 1]) + CellsSpecs(parse, r.meta, r.cells)
  }

  /** The list held under key `k`, empty when the key is absent. */
  function ListOf(m: map<string, seq<Spec>>, k: string): seq<Spec>
  {
    if k in m then m[k] else []
  }

  /**
   * Appending a record under its issue key: that key's list grows by exactly
   * the record at its end, and every other key keeps its list.
   */
  function Appended(m: map<string, seq<Spec>>, s: Spec): (r: map<string, seq<Spec>>)
    ensures ListOf(r, s.issue) == ListOf(m, s.issue) + [s]
    ensures forall k :: k != s.issue ==> ListOf(r, k) == ListOf(m, k)
  {
    m[s.issue := ListOf(m, s.issue) + [s]]
  }

  /** The map after appending each of `xs`, in order. */
  function Grouped(m: map<string, seq<Spec>>, xs: seq<Spec>): (r: map<string, seq<Spec>>)
    ensures m.Keys <= r.Keys
  {
    if xs == [] then m
    else Appended(Grouped(m, xs[..|xs| - 1]), xs[|xs| - 1])
  }

  /** The records of `xs` whose issue is `k`, in their original order. */
  function IssueEvents(xs: seq<Spec>, k: string): (r: seq<Spec>)
    ensures forall s :: s in r ==> s in xs && s.issue == k
  {
    if xs == [] then []
    else
      var x := xs[|xs| - 1];
      IssueEvents(xs[..|xs| - 1], k) + (if x.issue == k then [x] else [])
  }

  /** Some record of `xs` belongs to issue `k`. */
  predicate MentionsIssue(xs: seq<Spec>, k: string)
  {
    exists i :: 0 <= i < |xs| && xs[i].issue == k
  }

  lemma MentionsIssueSnoc(xs: seq<Spec>, k: string)
    requires xs != []
    ensures MentionsIssue(xs, k) <==> MentionsIssue(xs[..|xs| - 1], k) || xs[|xs| - 1].issue == k
  {
    var pre := xs[..|xs| - 1];
    if MentionsIssue(pre, k) {
      var i :| 0 <= i < |pre| && pre[i].issue == k;
      assert xs[i].issue == k;
    }
    if MentionsIssue(xs, k) && xs[|xs| - 1].issue != k {
      var i :| 0 <= i < |xs| && xs[i].issue == k;
      assert pre[i].issue == k;
    }
  }

  /** A key is in the grouped map exactly when it already was or some record carries it. */
  lemma {:induction false} GroupedKeys(m: map<string, seq<Spec>>, xs: seq<Spec>, k: string)
    ensures k in Grouped(m, xs) <==> k in m || MentionsIssue(xs, k)
  {
    if xs != [] {
      GroupedKeys(m, xs[..|xs| - 1], k);
      MentionsIssueSnoc(xs, k);
    }
  }

  /**
   * The list under a key is the earlier list followed by that issue's records
   * in encounter order.
   */
  lemma {:induction false} GroupedByIssue(m: map<string, seq<Spec>>, xs: seq<Spec>, k: string)
    ensures ListOf(Grouped(m, xs), k) == ListOf(m, k) + IssueEvents(xs, k)
  {
    if xs == [] {
      assert ListOf(m, k) + [] == ListOf(m, k);
    } else {
      var pre := xs[..|xs| - 1];
      var x := xs[|xs| - 1];
      GroupedByIssue(m, pre, k);
      if x.issue == k {
        assert ListOf(Grouped(m, xs), k) == ListOf(Grouped(m, pre), k) + [x];
      } else {
        assert ListOf(Grouped(m, xs), k) == ListOf(Grouped(m, pre), k);
      }
    }
  }

  /** Appending two batches one after the other is appending their concatenation. */
  lemma {:induction false} GroupedConcat(m: map<string, seq<Spec>>, xs: seq<Spec>, ys: seq<Spec>)
    ensures Grouped(m, xs + ys) == Grouped(Grouped(m, xs), ys)
  {
    if ys == [] {
      assert xs + ys == xs;
    } else {
      var pre := ys[..|ys| - 1];
      var y := ys[|ys| - 1];
      GroupedConcat(m, xs, pre);
      assert xs + ys == (xs + pre) + [y] && ys == pre + [y];
      GroupedSnoc(m, xs + pre, y);
      GroupedSnoc(Grouped(m, xs), pre, y);
    }
  }

  /** The map of issue keys to their event lists, updated in place as cells are read. */
  class SpecTable {
    var specs: map<string, seq<Spec>>

    constructor ()
      ensures specs == map[]
    {
      specs := map[];
    }

    /** Appends a record to the list of its issue, creating the list on first sight. */
    method Add(s: Spec)
      modifies this
      ensures specs == Appended(old(specs), s)
      ensures specs.Keys == old(specs.Keys) + {s.issue}
      ensures specs[s.issue] == ListOf(old(specs), s.issue) + [s]
      ensures forall k :: k in old(specs) && k != s.issue ==> specs[k] == old(specs)[k]
    {
      if s.issue in specs {
        var prior := specs[s.issue];
        prior := prior + [s];
        specs := specs[s.issue := prior];
      } else {
        var specArray := [s];
        assert ListOf(specs, s.issue) + [s] == specArray;
        specs := specs[s.issue := specArray];
      }
    }

    /** Reads the cells of one row in order and files each kept record under its issue. */
    method IngestRow(parse: DateParser, row: Row)
      requires CellsWellFormed(parse, row.cells)
      modifies this
      ensures specs == Grouped(old(specs), CellsSpecs(parse, row.meta, row.cells))
    {
      var j := 0;
      assert row.cells[..0] == [];
      while j < |row.cells|
        invariant 0 <= j <= |row.cells|
        invariant specs == Grouped(old(specs), CellsSpecs(parse, row.meta, row.cells[..j]))
      {
        var cell := row.cells[j];
        assert cell in row.cells;
        ghost var before := CellsSpecs(parse, row.meta, row.cells[..j]);
        ghost var after := CellsSpecs(parse, row.meta, row.cells[..j + 1]);
        CellsSpecsStep(parse, row.meta, row.cells, j);
        var event := CellEvent(parse, row.meta, cell);
        if event.Some? {
          assert after == before + [event.value];
          GroupedSnoc(old(specs), before, event.value);
          Add(event.value);
        } else {
          assert after == before;
        }
        j := j + 1;
      }
      assert row.cells[..j] == row.cells;
    }

    /** Reads every cell of every row in order and files each kept record under its issue. */
    method Ingest(parse: DateParser, rows: seq<Row>)
      requires RowsWellFormed(parse, rows)
      modifies this
      ensures specs == Grouped(old(specs), RowsSpecs(parse, rows))
    {
      var i := 0;
      while i < |rows|
        invariant 0 <= i <= |rows|
        invariant specs == Grouped(old(specs), RowsSpecs(parse, rows[..i]))
      {
        var row := rows[i];
        assert row in rows;
        assert rows[..i + 1][..i] == rows[..i];
        GroupedConcat(old(specs), RowsSpecs(parse, rows[..i]), CellsSpecs(parse, row.meta, row.cells));
        IngestRow(parse, row);
        i := i + 1;
      }
      assert rows[..i] == rows;
    }
  }

  /** The records of the first j + 1 cells are those of the first j, then the one cell j may add. */
  lemma CellsSpecsStep(parse: DateParser, meta: RowMeta, cells: seq<string>, j: nat)
    requires CellsWellFormed(parse, cells) && j < |cells|
    ensures CellsWellFormed(parse, cells[..j])
    ensures CellsSpecs(parse, meta, cells[..j + 1]) ==
            CellsSpecs(parse, meta, cells[..j]) + (if Kept(parse, cells[j]) then [CellSpec(parse, meta, cells[j])] else [])
  {
    assert cells[..j + 1][..j] == cells[..j];
  }

  /** Appending one more record. */
  lemma GroupedSnoc(m: map<string, seq<Spec>>, xs: seq<Spec>, x: Spec)
    ensures Grouped(m, xs + [x]) == Appended(Grouped(m, xs), x)
  {
    assert (xs + [x])[..|xs|] == xs;
  }

  /**
   * One cell read as the source reads it: classify, parse the date (zero time
   * on failure), keep only the target year, then extract the week.
   */
  method CellEvent(parse: DateParser, meta: RowMeta, cell: string) returns (event: Option<Spec>)
    requires CellWellFormed(parse, cell)
    ensures event.Some? <==> Kept(parse, cell)
    ensures event.Some? ==> event.value == CellSpec(parse, meta, cell)
  {
    event := None;
    if Contains(cell, ApprovedMarker) || Contains(cell, RejectedMarker) {
      var eventType := if Contains(cell, ApprovedMarker) then Approved else Rejected;
      var line := FirstLine(cell);
      var eventDate := ParsedOrZero(parse, FirstField(line, ' '));
      if eventDate.year == TargetYear {
        var created := ParsedOrZero(parse, FirstField(meta.createdText, ' '));
        var week := ScanWeek(line);
        event := Some(Spec(eventType, meta.specType, meta.issue, meta.status, meta.bu, meta.product,
                           eventDate, created, week, [], 0));
      }
    }
  }
}
