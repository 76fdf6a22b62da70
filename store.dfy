/**
 The in-memory expense list: identifier allocation, the total of the
 amounts, and the append steps of the `add` and `import-csv` commands
 (separated from loading and saving the database file).
 */
module Store {
  import opened Expenses

  /** One already-parsed line of an imported CSV file. */
  datatype Row = Row(amount: real, description: string)

  // ---------------------------------------------------------------------
  // Identifiers

  /** The identifiers in use. */
  function Ids(xs: seq<Expense>): set<int>
  {
    set e | e in xs :: e.id
  }

  /** n is the lowest positive integer missing from ids. */
  ghost predicate IsFreeId(ids: set<int>, n: int)
  {
    1 <= n && n !in ids && forall k :: 1 <= k < n ==> k in ids
  }

  /** A list of n expenses uses at most n identifiers. */
  lemma {:induction false} IdsSize(xs: seq<Expense>)
    ensures |Ids(xs)| <= |xs|
  {
    if xs == [] {
      assert Ids(xs) == {};
    } else {
      var n := |xs| - 1;
      IdsSize(xs[..n]);
      assert xs == xs[..n] + [xs[n]];
      assert Ids(xs) == Ids(xs[..n]) + {xs[n].id};
    }
  }

  /** If 1, ..., n are all used, there are at least n identifiers. */
  lemma {:induction false} Pigeonhole(ids: set<int>, n: nat)
    requires forall k :: 1 <= k <= n ==> k in ids
    ensures n <= |ids|
  {
    if n > 0 {
      Pigeonhole(ids - {n}, n - 1);
    }
  }

  /** The free identifier is determined by the set of used ones. */
  lemma FreeIdUnique(ids: set<int>, a: int, b: int)
    requires IsFreeId(ids, a) && IsFreeId(ids, b)
    ensures a == b
  {
  }

  /** The scan upward from `next`, all of 1, ..., next - 1 being in use. */
  function FreeIdFrom(ids: set<int>, next: int): (r: int)
    requires 1 <= next
    requires forall k :: 1 <= k < next ==> k in ids
    ensures IsFreeId(ids, r)
    ensures r <= |ids| + 1
    decreases |ids| + 1 - next
  {
    Pigeonhole(ids, next - 1);
    if next in ids then
      Pigeonhole(ids, next);
      FreeIdFrom(ids, next + 1)
    else
      next
  }

  /** The lowest positive integer not used as an identifier in xs. */
  function FreeId(xs: seq<Expense>): (r: int)
    ensures IsFreeId(Ids(xs), r)
    ensures r <= |xs| + 1
  {
    IdsSize(xs);
    FreeIdFrom(Ids(xs), 1)
  }

  /**
   find_free_id: collects the identifiers and scans upward from 1. The result
   is the lowest free identifier, and at most one more than the number of
   expenses, so the scan always stops.
   */
  method FindFreeId(expenses: seq<Expense>) returns (next: int)
    ensures 1 <= next && next !in Ids(expenses)
    ensures forall k :: 1 <= k < next ==> k in Ids(expenses)
    ensures next <= |expenses| + 1
    ensures next == FreeId(expenses)
  {
    var allIds := set e | e in expenses :: e.id;
    IdsSize(expenses);
    next := 1;
    while next in allIds
      invariant 1 <= next
      invariant forall k :: 1 <= k < next ==> k in allIds
      decreases |allIds| + 1 - next
    {
      Pigeonhole(allIds, next);
      next := next + 1;
    }
    Pigeonhole(allIds, next - 1);
    FreeIdUnique(allIds, next, FreeId(expenses));
  }

  /** The cases checked by the tests: {1} gives 2, {1, 3} gives 2, none gives 1. */
  lemma FreeIdExamples()
    ensures FreeId([]) == 1
    ensures FreeId([Expense(1, 25.0, "Lunch")]) == 2
    ensures FreeId([Expense(1, 25.0, "Lunch"), Expense(3, 50.0, "Gasoline")]) == 2
  {
  }

  // ---------------------------------------------------------------------
  // Well-formed lists

  /** No two expenses share an identifier. */
  ghost predicate DistinctIds(xs: seq<Expense>)
  {
    forall i, j :: 0 <= i < j < |xs| ==> xs[i].id != xs[j].id
  }

  /** What every list built by the commands satisfies. */
  ghost predicate WellFormed(xs: seq<Expense>)
  {
    && DistinctIds(xs)
    && forall i :: 0 <= i < |xs| ==> 1 <= xs[i].id && Valid(xs[i])
  }

  // ---------------------------------------------------------------------
  // Total

  /** compute_total: the sum of the amounts, added left to right from 0. */
  function Total(xs: seq<Expense>): (t: real)
    ensures (forall i :: 0 <= i < |xs| ==> Valid(xs[i])) ==> 0.0 <= t
    ensures (forall i :: 0 <= i < |xs| ==> Valid(xs[i])) && xs != [] ==> 0.0 < t
  {
    if xs == [] then 0.0 else Total(xs[..|xs| - 1]) + xs[|xs| - 1].amount
  }

  /** The total of a concatenation is the sum of the totals. */
  lemma {:induction false} TotalAppend(xs: seq<Expense>, ys: seq<Expense>)
    ensures Total(xs + ys) == Total(xs) + Total(ys)
  {
    if ys == [] {
      assert xs + ys == xs;
    } else {
      var n := |ys| - 1;
      TotalAppend(xs, ys[..n]);
      assert (xs + ys)[..|xs + ys| - 1] == xs + ys[..n];
    }
  }

  /** The totals checked by the tests. */
  lemma TotalExamples()
    ensures Total([]) == 0.0
    ensures Total([Expense(1, 10.0, "Test Expense 1"), Expense(2, 20.0, "Test Expense 2")]) == 30.0
    ensures Total([Expense(1, 100.0, "Test Expense 3"), Expense(2, 200.0, "Test Expense 4"),
                   Expense(3, 300.0, "Test Expense 5")]) == 600.0
  {
  }

  // ---------------------------------------------------------------------
  // add

  /** The list after `add`: a new expense with the free identifier appended, or the error. */
  function Added(xs: seq<Expense>, amount: real, desc: string): Result<seq<Expense>>
  {
    match NewExpense(FreeId(xs), amount, desc)
    case Failure(e) => Failure(e)
    case Success(x) => Success(xs + [x])
  }

  /**
   `add` succeeds exactly when the checks pass; it then appends one expense
   carrying the lowest free identifier and leaves the earlier ones alone.
   */
  lemma AddedSpec(xs: seq<Expense>, amount: real, desc: string)
    ensures Added(xs, amount, desc).Success? <==> Check(amount, desc).None?
    ensures Added(xs, amount, desc).Failure? ==> Check(amount, desc) == Some(Added(xs, amount, desc).error)
    ensures Added(xs, amount, desc).Success? ==>
      var ys := Added(xs, amount, desc).value;
      && |ys| == |xs| + 1
      && ys[..|xs|] == xs
      && ys[|xs|] == Expense(FreeId(xs), amount, desc)
      && FreeId(xs) !in Ids(xs)
  {
  }

  /** `add` keeps the identifiers distinct and every expense valid. */
  lemma AddedWellFormed(xs: seq<Expense>, amount: real, desc: string)
    requires WellFormed(xs)
    requires Added(xs, amount, desc).Success?
    ensures WellFormed(Added(xs, amount, desc).value)
  {
  }

  /** `add` raises the total by the new amount. */
  lemma AddedTotal(xs: seq<Expense>, amount: real, desc: string)
    requires Added(xs, amount, desc).Success?
    ensures Total(Added(xs, amount, desc).value) == Total(xs) + amount
  {
  }

  /** The in-memory part of `add`: allocate, construct, append. */
  method AddExpense(expenses: seq<Expense>, amount: real, desc: string) returns (r: Result<seq<Expense>>)
    ensures r == Added(expenses, amount, desc)
  {
    var nextId := FindFreeId(expenses);
    var made := NewExpense(nextId, amount, desc);
    if made.Failure? {
      return Failure(made.error);
    }
    r := Success(expenses + [made.value]);
  }

  // ---------------------------------------------------------------------
  // import-csv

  /** The rows, in order, each appended as `add` would, stopping at the first error. */
  function Imported(xs: seq<Expense>, rows: seq<Row>): Result<seq<Expense>>
    decreases |rows|
  {
    if rows == [] then Success(xs)
    else
      match Added(xs, rows[0].amount, rows[0].description)
      case Failure(e) => Failure(e)
      case Success(ys) => Imported(ys, rows[1..])
  }

  /** The position of the first row that fails the checks, or |rows| if none does. */
  function FirstRejected(rows: seq<Row>): (k: nat)
    ensures k <= |rows|
    ensures forall j :: 0 <= j < k ==> Check(rows[j].amount, rows[j].description).None?
    ensures k < |rows| ==> Check(rows[k].amount, rows[k].description).Some?
  {
    if rows == [] then 0
    else if Check(rows[0].amount, rows[0].description).Some? then 0
    else 1 + FirstRejected(rows[1..])
  }

  /**
   An import fails exactly when some row fails the checks, and then with the
   error of the first such row.
   */
  lemma {:induction false} ImportedFailure(xs: seq<Expense>, rows: seq<Row>)
    ensures Imported(xs, rows).Failure? <==> FirstRejected(rows) < |rows|
    ensures Imported(xs, rows).Failure? ==>
      var k := FirstRejected(rows);
      Check(rows[k].amount, rows[k].description) == Some(Imported(xs, rows).error)
    decreases |rows|
  {
    if rows != [] && Check(rows[0].amount, rows[0].description).None? {
      var ys := Added(xs, rows[0].amount, rows[0].description).value;
      ImportedFailure(ys, rows[1..]);
      var k := FirstRejected(rows[1..]);
      assert k < |rows[1..]| ==> rows[1..][k] == rows[k + 1];
    }
  }

  /**
   ys is xs followed by one expense per row, in row order; the expense for
   row i carries row i's fields and the lowest identifier free in the list
   that already holds the rows before it.
   */
  ghost predicate AppendsRows(xs: seq<Expense>, rows: seq<Row>, ys: seq<Expense>)
  {
    && |ys| == |xs| + |rows|
    && ys[..|xs|] == xs
    && forall i :: 0 <= i < |rows| ==>
         ys[|xs| + i] == Expense(FreeId(ys[..|xs| + i]), rows[i].amount, rows[i].description)
  }

  /** A successful import appends the rows as AppendsRows describes. */
  lemma {:induction false} ImportedAppends(xs: seq<Expense>, rows: seq<Row>)
    requires Imported(xs, rows).Success?
    ensures AppendsRows(xs, rows, Imported(xs, rows).value)
    decreases |rows|
  {
    if rows != [] {
      var zs := Added(xs, rows[0].amount, rows[0].description).value;
      ImportedAppends(zs, rows[1..]);
      var ys := Imported(xs, rows).value;
      assert ys == Imported(zs, rows[1..]).value;
      assert |zs| == |xs| + 1 && zs[..|xs|] == xs;
      assert ys[..|zs|] == zs;
      assert ys[..|xs|] == zs[..|xs|];
      forall i | 0 <= i < |rows|
        ensures ys[|xs| + i] == Expense(FreeId(ys[..|xs| + i]), rows[i].amount, rows[i].description)
      {
        if i == 0 {
          assert ys[|xs|] == zs[|xs|];
        } else {
          assert rows[1..][i - 1] == rows[i];
          assert |zs| + (i - 1) == |xs| + i;
        }
      }
    }
  }

  /** An import keeps the identifiers distinct and every expense valid. */
  lemma {:induction false} ImportedWellFormed(xs: seq<Expense>, rows: seq<Row>)
    requires WellFormed(xs)
    requires Imported(xs, rows).Success?
    ensures WellFormed(Imported(xs, rows).value)
    decreases |rows|
  {
    if rows != [] {
      AddedWellFormed(xs, rows[0].amount, rows[0].description);
      ImportedWellFormed(Added(xs, rows[0].amount, rows[0].description).value, rows[1..]);
    }
  }

  /** Importing the two rows of the test file into an empty list. */
  lemma ImportExample()
    ensures Imported([], [Row(25.0, "Lunch"), Row(50.0, "Gasoline")])
         == Success([Expense(1, 25.0, "Lunch"), Expense(2, 50.0, "Gasoline")])
    ensures Total([Expense(1, 25.0, "Lunch"), Expense(2, 50.0, "Gasoline")]) == 75.0
  {
    FreeIdExamples();
    var rows := [Row(25.0, "Lunch"), Row(50.0, "Gasoline")];
    var one := [Expense(1, 25.0, "Lunch")];
    var two := [Expense(1, 25.0, "Lunch"), Expense(2, 50.0, "Gasoline")];
    assert FreeId([]) == 1;
    assert NewExpense(1, 25.0, "Lunch") == Success(Expense(1, 25.0, "Lunch"));
    assert [] + [Expense(1, 25.0, "Lunch")] == one;
    assert Added([], 25.0, "Lunch") == Success(one);
    assert FreeId(one) == 2;
    assert NewExpense(2, 50.0, "Gasoline") == Success(Expense(2, 50.0, "Gasoline"));
    assert one + [Expense(2, 50.0, "Gasoline")] == two;
    assert Added(one, 50.0, "Gasoline") == Success(two);
    assert rows[1..] == [Row(50.0, "Gasoline")] && rows[1..][1..] == [];
    assert Imported(two, []) == Success(two);
    assert two[..1] == one && one[..0] == [];
  }

  /**
   The in-memory part of `import-csv`: for each row in order, allocate the
   free identifier of the list built so far, construct, append. The first
   invalid row ends the import with its error.
   */
  method ImportRows(expenses: seq<Expense>, rows: seq<Row>) returns (r: Result<seq<Expense>>)
    ensures r == Imported(expenses, rows)
  {
    var current := expenses;
    for i := 0 to |rows|
      invariant Imported(current, rows[i..]) == Imported(expenses, rows)
    {
      assert rows[i..][0] == rows[i] && rows[i..][1..] == rows[i + 1..];
      var nextId := FindFreeId(current);
      var made := NewExpense(nextId, rows[i].amount, rows[i].description);
      if made.Failure? {
        return Failure(made.error);
      }
      current := current + [made.value];
    }
    assert rows[|rows|..] == [];
    r := Success(current);
  }
}
