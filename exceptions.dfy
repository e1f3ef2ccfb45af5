/**
 * The closed taxonomy of domain errors (all subclasses of DomainException)
 * and the result types that carry them instead of raising.
 */
module Exceptions {

  /** Which validation rule rejected an input, in the order the rules are checked. */
  datatype Violation =
    | NitEmpty | NitTooShort | NitFormat
    | EmailEmpty | EmailFormat
    | PhoneEmpty | PhoneNotDigits | PhoneLength
    | CodeEmpty | CodeTooShort | CodeFormat
    | NegativeQuantity | NegativeDifference
    | EmpresaNombreTooShort | EmpresaDireccionTooShort
    | ProductoNombreTooShort

  /** The entity a not-found or duplicate error is about. */
  datatype EntityKind = EmpresaKind | ProductoKind | InventarioKind

  datatype DomainError =
    | ValidationError(violation: Violation)
    | EntityNotFoundError(kind: EntityKind)
    | DuplicateEntityError(kind: EntityKind)
    | BusinessRuleViolationError
      /** The shortfall report: what is available and what was required. */
    | InsufficientStockError(available: nat, required: nat)
      /** Part of the taxonomy; no operation of the domain raises it. */
    | UnauthorizedOperationError

  /** A value, or the domain error that was raised instead. */
  datatype Result<+T> = Ok(value: T) | Err(error: DomainError)

  /** Completion of an operation that returns nothing (Python `-> None`). */
  datatype Outcome = Pass | Fail(error: DomainError)

  /**
   * A mutating call that may raise part-way: the state it leaves behind and
   * how it ended.
   */
  datatype Step<+S> = Step(state: S, outcome: Outcome)

  /** What a use case returns, and the store it leaves behind. */
  datatype Effect<+T, +S> = Effect(result: Result<T>, store: S)

  /**
   * The step of a call that either commits the new state `r.value` or raises
   * `r.error` before changing anything.
   */
  function Committed<S>(before: S, r: Result<S>): (s: Step<S>)
    ensures s.outcome == Pass <==> r.Ok?
    ensures r.Ok? ==> s.state == r.value
    ensures r.Err? ==> s.state == before && s.outcome == Fail(r.error)
  {
    match r
    case Ok(v) => Step(v, Pass)
    case Err(e) => Step(before, Fail(e))
  }
}
