/** The errors the server core throws, each with the message it carries. */
module AuthErrors {

  datatype AuthError =
    | InvalidCredentials
    | AccountLocked
    | DuplicateEmail
    | DuplicateUsername
    | UserNotFound
      // the document fails the schema's validators when it is saved
    | ValidationFailed
      // the database refuses a second document with the same `_id`
    | DuplicateKey
  {
    function Message(): string
    {
      match this
      case InvalidCredentials => "Invalid email or password"
      case AccountLocked => "Account is locked. Please try again later or reset your password."
      case DuplicateEmail => "User with this email already exists"
      case DuplicateUsername => "User with this username already exists"
      case UserNotFound => "User not found"
      case ValidationFailed => "User validation failed"
      case DuplicateKey => "E11000 duplicate key error"
    }
  }
}
