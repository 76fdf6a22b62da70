/**
 The structure of the `report` output: either the empty-database notice or
 a table with one line per expense, in list order, a big-expense marker on
 the expensive ones, and a closing total. Column widths and number
 formatting are presentation and are not modelled.
 */
module Reports {
  import opened Expenses

  /** The marker printed in the BIG? column of an expensive line. */
  const Marker: string := "(!)"

  /** One table line: identifier, amount, marker (or empty) and description. */
  datatype Line = Line(id: int, amount: real, warning: string, desc: string)

  datatype Report = EmptyNotice | Table(lines: seq<Line>, total: real)

  function LineOf(e: Expense): Line
  {
    Line(e.id, e.amount, if IsExpensive(e) then Marker else "", e.desc)
  }

  /** The table lines for xs, in list order. */
  function Lines(xs: seq<Expense>): (r: seq<Line>)
    ensures |r| == |xs|
  {
    if xs == [] then [] else Lines(xs[..|xs| - 1]) + [LineOf(xs[|xs| - 1])]
  }

  /** print_report, given the list and the total to print under it. */
  function ReportOf(xs: seq<Expense>, total: real): Report
  {
    if xs != [] then Table(Lines(xs), total) else EmptyNotice
  }

  /** Line i of the table shows expense i. */
  lemma {:induction false} LinesAt(xs: seq<Expense>, i: int)
    requires 0 <= i < |xs|
    ensures Lines(xs)[i] == LineOf(xs[i])
  {
    if i < |xs| - 1 {
      LinesAt(xs[..|xs| - 1], i);
    }
  }

  /**
   The notice is given exactly for the empty list. Otherwise every expense
   appears once, in order, with its identifier, amount and description; the
   marker is on exactly the lines whose amount reaches the threshold and the
   other lines carry none; the last line is the given total.
   */
  lemma ReportStructure(xs: seq<Expense>, total: real)
    ensures ReportOf(xs, total).EmptyNotice? <==> xs == []
    ensures xs != [] ==>
      var r := ReportOf(xs, total);
      && r.total == total
      && |r.lines| == |xs|
      && forall i :: 0 <= i < |xs| ==>
           && r.lines[i].id == xs[i].id
           && r.lines[i].amount == xs[i].amount
           && r.lines[i].desc == xs[i].desc
           && (r.lines[i].warning == Marker <==> xs[i].amount >= 1000.0)
           && (r.lines[i].warning == Marker || r.lines[i].warning == "")
  {
    forall i | 0 <= i < |xs|
      ensures Lines(xs)[i] == LineOf(xs[i])
    {
      LinesAt(xs, i);
    }
  }

  /** The expense a table line shows. */
  function EntryOf(l: Line): Expense
  {
    Expense(l.id, l.amount, l.desc)
  }

  /** The expenses a table shows, line by line. */
  function Entries(lines: seq<Line>): seq<Expense>
  {
    seq(|lines|, i requires 0 <= i < |lines| => EntryOf(lines[i]))
  }

  /** Nothing is lost or reordered: the table's lines give back the list. */
  lemma ReportLossless(xs: seq<Expense>, total: real)
    requires xs != []
    ensures Entries(ReportOf(xs, total).lines) == xs
  {
    ReportStructure(xs, total);
  }

  /** The loop of print_report over the expenses, producing the lines it prints. */
  method PrintReport(expenses: seq<Expense>, total: real) returns (report: Report)
    ensures report == ReportOf(expenses, total)
  {
    if expenses == [] {
      return EmptyNotice;
    }
    var lines := [];
    for i := 0 to |expenses|
      invariant lines == Lines(expenses[..i])
    {
      lines := lines + [LineOf(expenses[i])];
      assert expenses[..i + 1][..i] == expenses[..i];
    }
    assert expenses[..|expenses|] == expenses;
    report := Table(lines, total);
  }
}
