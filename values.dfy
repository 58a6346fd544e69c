/** Request payloads as the controllers see them: JSON values whose absence,
    type and JavaScript truthiness each steer a different branch. */
module Values {

  datatype Option<+T> = None | Some(value: T)

  /** A field of a JSON request body. `Undefined` is a key that is not there;
      `Null` is a key present with `null`. Numbers are integers (floating point
      and NaN are not modelled); arrays carry strings. */
  datatype Value =
    | Undefined
    | Null
    | Bool(b: bool)
    | Num(n: int)
    | Str(s: string)
    | Arr(items: seq<string>)
    | Obj

  /** JavaScript truthiness, the test behind `if (x)` and `!x`. */
  predicate Truthy(v: Value) {
    match v
    case Undefined => false
    case Null => false
    case Bool(b) => b
    case Num(n) => n != 0
    case Str(s) => s != ""
    case Arr(_) => true
    case Obj => true
  }

  /** `x !== undefined` */
  predicate Present(v: Value) {
    v != Undefined
  }

  /** The request field an error is about. */
  datatype Field =
    | FirstName | LastName | Email | Username | Password | PhoneNumber
    | RoleRef | Active | UserId | RoleId | Name | AccessModules | Module
    | Required | Types | EmailOrUsername | Updates | Paging

  /** The outcome kinds of the handlers, in place of HTTP status codes and
      message strings. */
  datatype Error =
    | BadInput(field: Field)
    | BadId(field: Field)
    | NotFound
    | Duplicate(field: Field)
    | BadRole
    | InUse
    | Inactive
    | NoAccess
    | ServerError

  datatype Result<+T> = Ok(value: T) | Err(error: Error)
}
