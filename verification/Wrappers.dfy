/** Failure-compatible results shared by every module. */
module Wrappers {

  datatype Option<+T> = None | Some(value: T)

  /** Every way in which an instruction can refuse or abort. The first group are
      the programs' own error codes, the second the failures of the runtime and
      of the token and system programs, and the last an aborted computation. */
  datatype Error =
    | InvalidAmount
    | InvalidTime
    | InvalidSecret
    | InvalidCreationTime
    | InvalidRescueStart
    | InvalidMerkleProof
    | InvalidPartialFill
    | InvalidPartsAmount
    | InvalidCancellationFee
    | InconsistentMerkleProofTrait
    | InconsistentNativeTrait
    | DutchAuctionDataHashMismatch
    | OrderHasExpired
    | OrderNotExpired
    | CancelOrderByResolverIsForbidden
    | ZeroAmountOrDeposit
    | SafetyDepositTooLarge
    | MissingCreatorAta
    | MissingRecipientAta
    | AccountNotInitialized
    | AccountAlreadyInUse
    | NotAuthorised
    | InsufficientFunds
    | NonNativeHasBalance
    | ArithmeticOverflow

  datatype Result<+T> = Ok(value: T) | Err(error: Error) {
    predicate IsFailure() {
      Err?
    }

    function PropagateFailure<U>(): Result<U>
      requires Err?
    {
      Err(error)
    }

    function Extract(): T
      requires Ok?
    {
      value
    }
  }

  /** A precondition checked inside a function; its failure is the function's. */
  datatype Check = Holds | Fails(error: Error) {
    predicate IsFailure() {
      Fails?
    }

    function PropagateFailure<U>(): Result<U>
      requires Fails?
    {
      Err(error)
    }
  }

  /** `require!(condition, error)` inside a function. */
  function Require(condition: bool, error: Error): Check {
    if condition then Holds else Fails(error)
  }

  /** The result of a method that changes state and returns no value. */
  datatype Outcome = Pass | Fail(error: Error) {
    predicate IsFailure() {
      Fail?
    }

    function PropagateFailure(): Outcome
      requires Fail?
    {
      this
    }
  }

  /** `require!(condition, error)` inside a method. */
  function Need(condition: bool, error: Error): Outcome {
    if condition then Pass else Fail(error)
  }

  function AsOutcome<T>(r: Result<T>): Outcome {
    if r.Ok? then Pass else Fail(r.error)
  }
}
