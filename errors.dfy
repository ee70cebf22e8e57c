/**
 * The error values of the models package and how `errors.Is` sees them.
 *
 * A Go error is modelled by the set of sentinels its wrap chain reaches
 * (what `errors.Is` can find) together with the text `Error()` returns.
 */
module Errors {

  /** The sentinel errors the services compare against. */
  datatype Kind =
    | RecordNotFound      // models.ErrRecordNotFound
    | Validation          // models.ErrValidation
    | Internal            // models.InternalError
    | TicketAlreadyUsed   // models.ErrTicketAlreadyUsed
    | EventNotFound       // models.ErrEventNotFound
    | UserAlreadyExist    // models.ErrUserAlreadyExist
    | PasswordEmpty       // models.ErrPasswordEmpty
    | InvalidCredentials  // models.ErrInvalidCredentials
    | InvalidToken        // models.ErrInvalidToken

  /** A Go error value: the sentinels reachable through Unwrap, and its message. */
  datatype Error = Error(wraps: set<Kind>, message: string)

  /**
   * The text each sentinel was created with. ErrTicketAlreadyUsed and
   * ErrEventNotFound are declared outside the modelled files, so their two
   * texts here are placeholders.
   */
  function SentinelText(k: Kind): string {
    match k
    case RecordNotFound => "event not found"
    case Validation => "validation error"
    case Internal => "internal server error"
    case TicketAlreadyUsed => "ticket already used"
    case EventNotFound => "event does not exist"
    case UserAlreadyExist => "user already exist"
    case PasswordEmpty => "password cannot be empty"
    case InvalidCredentials => "invalid credentials"
    case InvalidToken => "invalid token"
  }

  /** `errors.Is(e, k)`. */
  predicate Is(e: Error, k: Kind) {
    k in e.wraps
  }

  /** The sentinel itself: it matches its own kind and no other. */
  function Sentinel(k: Kind): (e: Error)
    ensures Is(e, k)
    ensures forall j :: Is(e, j) ==> j == k
    ensures e.message == SentinelText(k)
  {
    Error({k}, SentinelText(k))
  }

  /** An error from a driver, the network or a library that wraps no sentinel of the models package. */
  function Opaque(message: string): (e: Error)
    ensures forall k :: !Is(e, k)
    ensures e.message == message
  {
    Error({}, message)
  }

  const InternalError: Error := Sentinel(Internal)

  /** `NewValidationError(msg)`, i.e. `fmt.Errorf("%w: %s", ErrValidation, msg)`. */
  function NewValidationError(msg: string): (e: Error)
    ensures Is(e, Validation)
    ensures forall k :: Is(e, k) ==> k == Validation
    ensures e.message == "validation error: " + msg
  {
    Error({Validation}, SentinelText(Validation) + ": " + msg)
  }

  /**
   * The mapping the services apply to a repository error: a not-found stays
   * `ErrRecordNotFound`, everything else becomes `InternalError`.
   */
  function NotFoundOrInternal(e: Error): (r: Error)
    ensures Is(e, RecordNotFound) ==> r == Sentinel(RecordNotFound)
    ensures !Is(e, RecordNotFound) ==> r == InternalError
  {
    if Is(e, RecordNotFound) then Sentinel(RecordNotFound) else InternalError
  }

  /** The four sentinels of the auth model. */
  predicate IsAuthKind(k: Kind) {
    k == UserAlreadyExist || k == PasswordEmpty || k == InvalidCredentials || k == InvalidToken
  }

  /** The auth sentinels are pairwise distinct, as values and as texts. */
  lemma AuthSentinelsDistinct(a: Kind, b: Kind)
    requires IsAuthKind(a) && IsAuthKind(b) && a != b
    ensures Sentinel(a) != Sentinel(b)
    ensures SentinelText(a) != SentinelText(b)
  {
  }

  /** A validation error is never mistaken for the internal error, nor the other way round. */
  lemma ValidationIsNotInternal(msg: string)
    ensures !Is(NewValidationError(msg), Internal)
    ensures !Is(InternalError, Validation)
    ensures NewValidationError(msg) != InternalError
  {
  }
}
