/**
 The expense record of the budget manager: one spending event with an
 identifier, a positive amount and a non-empty description, and the
 "expensive" flag used by the report.
 */
module Expenses {

  /** Amounts at or above this threshold are flagged as big expenses. */
  const MuchExpensive: real := 1000.0

  datatype Option<T> = None | Some(value: T)

  /** Why the construction of an expense was refused. */
  datatype ValidationError = AmountNotPositive | EmptyDescription

  /** Either a value or the validation error that prevented it. */
  datatype Result<T> = Success(value: T) | Failure(error: ValidationError)

  /** One recorded expense. Amounts are exact reals, not binary floats. */
  datatype Expense = Expense(id: int, amount: real, desc: string)

  /**
   The text carried by the exception for each kind of refusal; each begins
   with the phrase the command prints after its error prefix.
   */
  function Message(e: ValidationError): (m: string)
    ensures e.AmountNotPositive? ==> "Amount cannot be zero or negative" <= m
    ensures e.EmptyDescription? ==> "Description cannot be empty" <= m
  {
    match e
    case AmountNotPositive => "Amount cannot be zero or negative."
    case EmptyDescription => "Description cannot be empty."
  }

  /** Different refusals print different texts, so the text tells which check failed. */
  lemma MessageDistinct(a: ValidationError, b: ValidationError)
    requires Message(a) == Message(b)
    ensures a == b
  {
  }

  /**
   The checks run when an expense is constructed, in their order: the first
   one that fails, or None. Only emptiness of the description is tested, so
   a description made of blanks is accepted.
   */
  function Check(amount: real, desc: string): (r: Option<ValidationError>)
    ensures r.Some? <==> amount <= 0.0 || |desc| == 0
    ensures r == Some(AmountNotPositive) <==> amount <= 0.0
    ensures r == Some(EmptyDescription) <==> amount > 0.0 && |desc| == 0
  {
    if amount <= 0.0 then Some(AmountNotPositive)
    else if desc == "" then Some(EmptyDescription)
    else None
  }

  /** What every constructed expense satisfies. */
  predicate Valid(e: Expense)
  {
    Check(e.amount, e.desc).None?
  }

  /** Constructing an expense: the record itself, or the first failed check. */
  function NewExpense(id: int, amount: real, desc: string): (r: Result<Expense>)
    ensures r.Success? <==> amount > 0.0 && |desc| > 0
    ensures r.Success? ==> r.value.id == id && r.value.amount == amount && r.value.desc == desc
    ensures r.Success? ==> Valid(r.value)
    ensures r.Failure? ==> Check(amount, desc) == Some(r.error)
  {
    match Check(amount, desc)
    case Some(e) => Failure(e)
    case None => Success(Expense(id, amount, desc))
  }

  /** True when the expense reaches the big-expense threshold of 1000. */
  predicate IsExpensive(e: Expense)
    ensures IsExpensive(e) <==> e.amount >= 1000.0
  {
    e.amount >= MuchExpensive
  }

  /**
   Being flagged depends on the amount only, is monotone in it, and holds
   exactly from 1000 upward.
   */
  lemma ExpensiveMonotone(e: Expense, f: Expense)
    requires e.amount <= f.amount
    ensures IsExpensive(e) <==> e.amount >= 1000.0
    ensures IsExpensive(e) ==> IsExpensive(f)
    ensures f.amount < 1000.0 ==> !IsExpensive(e)
  {
  }

  /** The refused `add` of the tests: amount 0, reported with the amount message. */
  lemma ZeroAmountRefused()
    ensures NewExpense(1, 0.0, "Invalid expense") == Failure(AmountNotPositive)
    ensures "Amount cannot be zero or negative" <= Message(NewExpense(1, 0.0, "Invalid expense").error)
  {
  }

  /** Boundary cases of the construction checks and of the threshold. */
  lemma ConstructionBoundaries()
    ensures NewExpense(1, -5.0, "") == Failure(AmountNotPositive)
    ensures NewExpense(1, 10.0, "") == Failure(EmptyDescription)
    ensures NewExpense(1, 0.01, "Valid expense").Success?
    ensures NewExpense(1, 10.0, " ").Success?
    ensures IsExpensive(Expense(1, 1000.0, "Rent"))
    ensures !IsExpensive(Expense(1, 999.99, "Rent"))
  {
  }
}
