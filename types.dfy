/** Identifiers, optional values, results and the error taxonomy shared by every handler. */
module Types {

  /** Document ids are opaque; both collections draw them from one id space. */
  type UserId = nat
  type RecipeId = nat

  datatype Option<T> = None | Some(value: T)

  datatype Result<T> = Success(value: T) | Failure(error: Error)

  /** The failure answers the handlers send, one per distinct response. */
  datatype Error =
    | InvalidRating           // 400 'Rating must be between 1 and 5.'
    | RecipeNotFound          // 404 'Recipe not found.'
    | NotFoundOrUnauthorized  // 404 'Recipe not found or unauthorized.'
    | UserNotFound            // 404 'User not found.'
    | EmailInUse              // 409 'Email already in use.'
    | ServerError             // 500 'Server error.' (validation, duplicate key, null dereference)

  /** The HTTP status each failure is reported with. */
  function Status(e: Error): (code: nat)
    ensures 400 <= code < 600
    ensures code == 500 <==> e == ServerError
  {
    match e
    case InvalidRating => 400
    case RecipeNotFound => 404
    case NotFoundOrUnauthorized => 404
    case UserNotFound => 404
    case EmailInUse => 409
    case ServerError => 500
  }

  function Max(a: int, b: int): int { if a >= b then a else b }

  function Min(a: int, b: int): int { if a <= b then a else b }

  predicate NoDup<T(==)>(s: seq<T>)
  {
    forall i, j :: 0 <= i < j < |s| ==> s[i] != s[j]
  }
}
