/** The outcome of evaluating a Boolean expression
    (EvaluationResultImpl.java): a status, and a simplified expression
    exactly when the status says the expression was simplified. */
module EvaluationResult {
  import opened Wrappers

  const ILLEGAL_STATUS := "Use a different construction for SIMPLIFIED EXPRESSION"

  datatype Status = SimplifiedExpression | SameExpression | IsNull | IsFalse | IsTrue

  datatype EvaluationResult<E> = EvaluationResult(simplifiedExpression: Option<E>, status: Status)
  {
    /** The invariant both constructors establish. */
    predicate Valid() {
      simplifiedExpression.Some? <==> status == SimplifiedExpression
    }

    function GetStatus(): Status {
      status
    }

    function GetSimplifiedExpression(): Option<E> {
      simplifiedExpression
    }
  }

  /** The constructor taking an expression. */
  function OfExpression<E>(e: E): (r: EvaluationResult<E>)
    ensures r.Valid()
    ensures r.GetStatus() == SimplifiedExpression && r.GetSimplifiedExpression() == Some(e)
  {
    EvaluationResult(Some(e), SimplifiedExpression)
  }

  /** The constructor taking a status: SIMPLIFIED_EXPRESSION is refused with
      an `IllegalArgumentException`; any other status has no expression. */
  function OfStatus<E>(status: Status): (r: Result<EvaluationResult<E>>)
    ensures r.Err? <==> status == SimplifiedExpression
    ensures r.Err? ==> r.message == ILLEGAL_STATUS
    ensures r.Ok? ==> r.value.Valid() && r.value.GetStatus() == status && r.value.GetSimplifiedExpression().None?
  {
    if status == SimplifiedExpression then Err(ILLEGAL_STATUS)
    else Ok(EvaluationResult(None, status))
  }

  /** The status-only result of a status; the shared instances of the class
      are built this way. */
  function StatusResult<E>(status: Status): EvaluationResult<E>
    requires status != SimplifiedExpression
  {
    OfStatus(status).value
  }

  function DeclareSimplifiedExpression<E>(e: E): (r: EvaluationResult<E>)
    ensures r.GetStatus() == SimplifiedExpression && r.GetSimplifiedExpression() == Some(e)
  {
    OfExpression(e)
  }

  function DeclareSameExpression<E>(): (r: EvaluationResult<E>)
    ensures r.Valid() && r.GetStatus() == SameExpression && r.GetSimplifiedExpression().None?
  {
    StatusResult(SameExpression)
  }

  function DeclareIsNull<E>(): (r: EvaluationResult<E>)
    ensures r.Valid() && r.GetStatus() == IsNull && r.GetSimplifiedExpression().None?
  {
    StatusResult(IsNull)
  }

  function DeclareIsFalse<E>(): (r: EvaluationResult<E>)
    ensures r.Valid() && r.GetStatus() == IsFalse && r.GetSimplifiedExpression().None?
  {
    StatusResult(IsFalse)
  }

  function DeclareIsTrue<E>(): (r: EvaluationResult<E>)
    ensures r.Valid() && r.GetStatus() == IsTrue && r.GetSimplifiedExpression().None?
  {
    StatusResult(IsTrue)
  }

  /** Every valid result is one of the factories' results, and a valid
      result with a status other than SIMPLIFIED_EXPRESSION carries no
      expression. */
  lemma ValidResultsAreDeclared<E>(r: EvaluationResult<E>)
    requires r.Valid()
    ensures r.GetStatus() != SimplifiedExpression ==> r.GetSimplifiedExpression().None?
    ensures r.GetStatus() == SimplifiedExpression ==> r == DeclareSimplifiedExpression(r.GetSimplifiedExpression().value)
    ensures r.GetStatus() == SameExpression ==> r == DeclareSameExpression()
    ensures r.GetStatus() == IsNull ==> r == DeclareIsNull()
    ensures r.GetStatus() == IsFalse ==> r == DeclareIsFalse()
    ensures r.GetStatus() == IsTrue ==> r == DeclareIsTrue()
  {
  }
}
