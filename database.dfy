/**
 The commands of the budget manager against its database file. The file is
 modelled by the list it holds (`stored`) and the number of times it has
 been written (`saves`). Each command loads the list, works on it in memory,
 and writes it back only when it has succeeded, so a refused command leaves
 the file exactly as it was.
 */
module Budget {
  import opened Expenses
  import opened Store
  import Reports

  /** How a command ended: done, or refused with a validation error. */
  datatype Outcome = Done | Rejected(error: ValidationError)

  class BudgetDatabase {
    /** The list of expenses the database file holds. */
    var stored: seq<Expense>
    /** How many times the database file has been written. */
    var saves: nat

    /**
     load_or_create_db: the saved list, or the empty list when there is no
     database file yet.
     */
    constructor Load(file: Option<seq<Expense>>)
      ensures stored == (if file.Some? then file.value else [])
      ensures saves == 0
    {
      stored := if file.Some? then file.value else [];
      saves := 0;
    }

    /**
     The `add` command: the new expense gets the lowest free identifier and is
     appended; on a validation error nothing is appended and nothing is saved.
     */
    method Add(amount: real, desc: string) returns (outcome: Outcome)
      modifies this
      ensures outcome.Done? <==> Check(amount, desc).None?
      ensures outcome.Rejected? ==>
        && Check(amount, desc) == Some(outcome.error)
        && stored == old(stored)
        && saves == old(saves)
      ensures outcome.Done? ==>
        && stored == old(stored) + [Expense(FreeId(old(stored)), amount, desc)]
        && FreeId(old(stored)) !in Ids(old(stored))
        && saves == old(saves) + 1
      ensures WellFormed(old(stored)) ==> WellFormed(stored)
    {
      var expenses := stored;
      AddedSpec(expenses, amount, desc);
      var result := AddExpense(expenses, amount, desc);
      match result
      case Failure(e) =>
        outcome := Rejected(e);
      case Success(updated) =>
        if WellFormed(expenses) {
          AddedWellFormed(expenses, amount, desc);
        }
        stored := updated;
        saves := saves + 1;
        outcome := Done;
    }

    /**
     The `import-csv` command on the already-parsed rows. Rows are appended in
     order, each with the lowest identifier free at that point. Any refused
     row stops the command before the list is saved, so the file holds either
     the old list or the old list followed by one expense per row.
     */
    method ImportCsv(rows: seq<Row>) returns (outcome: Outcome)
      modifies this
      ensures outcome.Done? <==> forall i :: 0 <= i < |rows| ==> Check(rows[i].amount, rows[i].description).None?
      ensures outcome.Rejected? ==>
        && var k := FirstRejected(rows);
        && k < |rows|
        && Check(rows[k].amount, rows[k].description) == Some(outcome.error)
        && stored == old(stored)
        && saves == old(saves)
      ensures outcome.Done? ==> AppendsRows(old(stored), rows, stored) && saves == old(saves) + 1
      ensures WellFormed(old(stored)) ==> WellFormed(stored)
    {
      var expenses := stored;
      ImportedFailure(expenses, rows);
      var result := ImportRows(expenses, rows);
      match result
      case Failure(e) =>
        outcome := Rejected(e);
      case Success(updated) =>
        ImportedAppends(expenses, rows);
        if WellFormed(expenses) {
          ImportedWellFormed(expenses, rows);
        }
        stored := updated;
        saves := saves + 1;
        outcome := Done;
    }

    /** clear_database: the file is overwritten with the empty list. */
    method ClearDatabase()
      modifies this
      ensures stored == []
      ensures saves == old(saves) + 1
      ensures WellFormed(stored)
    {
      stored := [];
      saves := saves + 1;
    }

    /**
     The `report` command: the report of the stored list with its total. A
     table's closing total is the sum of the amounts shown above it.
     */
    method Report() returns (report: Reports.Report)
      ensures report == Reports.ReportOf(stored, Total(stored))
      ensures report.EmptyNotice? <==> stored == []
      ensures report.Table? ==> report.total == Total(Reports.Entries(report.lines))
    {
      var total := Total(stored);
      report := Reports.PrintReport(stored, total);
      Reports.ReportStructure(stored, total);
      if stored != [] {
        Reports.ReportLossless(stored, total);
      }
    }
  }
}
