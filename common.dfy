/** Values shared by every part of the model: optional values, results and
    the identifiers of the stored documents. */
module Common {

  /** A value that may be missing: an absent request field, a `null` lookup. */
  datatype Option<+T> = None | Some(value: T) {
    function GetOr(default: T): T {
      match this
      case Some(v) => v
      case None => default
    }
  }

  /** The outcome of a schema validation or of a handler: a value or an error. */
  datatype Result<+T, +E> = Ok(value: T) | Err(error: E)

  /** Why a document fails its schema's validation, naming the offending path. */
  datatype ValidationError =
    | Required(path: string)
    | TooShort(path: string)
    | TooLong(path: string)
    | OutOfRange(path: string)
    | NotInEnum(path: string)
    | NoMatch(path: string)

  /** Identifiers of stored documents (MongoDB object ids, compared by equality only). */
  type UserId = nat
  type RewardId = nat
  type LootBoxId = nat
  type TodoId = nat

  /** Timestamps are integer milliseconds since the epoch. */
  type Millis = int

  /** HTTP status codes the handlers answer with. */
  const Success: nat := 200
  const Created: nat := 201
  const BadRequest: nat := 400
  const Unauthorized: nat := 401
  const Forbidden: nat := 403
  const NotFound: nat := 404
  const Conflict: nat := 409
  const ServerError: nat := 500
}
