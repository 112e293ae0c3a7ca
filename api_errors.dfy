/** Every way a handler of the core can fail, with the HTTP status the caller sees. The first group is raised as
    `ApiError` by the controller; the second group are exceptions nobody catches, which `asyncHandler` forwards to
    Express's default error handler, answering 500. */
module ApiErrors {
  import opened Common
  import Jwt

  datatype Failure =
    | AllFieldsRequired
    | UserExists
    | AvatarRequired
    | UsernameOrEmailRequired
    | UserNotFound
    | InvalidCredentials
    | UnauthorizedRequest
    | InvalidRefreshToken
    | RefreshTokenExpiredOrUsed
    | HelperNotDefined
    | TokenGenerationFailed
    | TypeErrorThrown
    | ValidationFailed(missing: set<Path>)
    | DuplicateKey
    | BcryptArgumentMissing
    | JwtRejected(reason: Jwt.VerifyError)

  /** The status code of the response each failure produces. */
  function Status(f: Failure): nat
  {
    match f
    case AllFieldsRequired => 400
    case UserExists => 409
    case AvatarRequired => 400
    case UsernameOrEmailRequired => 400
    case UserNotFound => 404
    case InvalidCredentials => 401
    case UnauthorizedRequest => 401
    case InvalidRefreshToken => 401
    case RefreshTokenExpiredOrUsed => 401
    case HelperNotDefined => 401
    case TokenGenerationFailed => 500
    case TypeErrorThrown => 500
    case ValidationFailed(_) => 500
    case DuplicateKey => 500
    case BcryptArgumentMissing => 500
    case JwtRejected(_) => 500
  }
}
