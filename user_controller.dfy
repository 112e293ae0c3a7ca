/** The controller's handlers as methods over the `User` model bound to its collection, each proved to answer
    and to leave the collection exactly as the corresponding function of the session module says, and to keep
    the collection invariant. Responses are the `Result` values; status codes are `ApiErrors.Status`. */
module UserController {
  import opened Common
  import opened ApiErrors
  import opened UserModel
  import opened UserStore
  import opened Session
  import Jwt
  import Bcrypt
  import Text

  /** `generateAccessAndRefreshToken(userId)`. A null `findById` makes `user.generateAccessToken()` throw, and
      the catch turns that into a 500. */
  method GenerateAccessAndRefreshToken(users: Users, userId: Id, now: int, salt: Bcrypt.Salt)
    returns (r: Result<TokenPair, Failure>)
    requires users.Valid()
    modifies users
    ensures users.Valid()
    ensures (r, users.State()) == Issue(old(users.State()), users.config, userId, now)
  {
    IssuePreservesInvariant(users.State(), users.config, userId, now);
    var user := users.FindById(userId);
    if user == null {
      return Err(TokenGenerationFailed);
    }
    var accessToken := GenerateAccessToken(userId, user.data, users.config, now);
    var refreshToken := GenerateRefreshToken(userId, users.config, now);
    user.SetRefreshToken(refreshToken);
    PreSaveHookEffect(user.data, user.modified, salt);
    var _ := users.Save(user, salt);
    r := Ok(TokenPair(accessToken, refreshToken));
  }

  /** `registerUser`, with the upload service's answers for the avatar and the cover image as parameters, over
      the schema with coverImage optional (see `Session.RegisterAsWrittenNeedsCoverImage` for the schema as
      written). The `!createdUser` branch cannot be taken: the account was just inserted. */
  method RegisterUser(users: Users, req: RegisterRequest, avatarUpload: Option<string>, coverUpload: Option<string>,
                      salt: Bcrypt.Salt)
    returns (r: Result<PublicView, Failure>)
    requires users.Valid()
    modifies users
    ensures users.Valid()
    ensures (r, users.State()) == Register(old(users.State()), req, avatarUpload, coverUpload, salt, false)
  {
    RegisterPreservesInvariant(users.State(), users.config, req, avatarUpload, coverUpload, salt, false);
    if AnyBlank(req) {
      return Err(AllFieldsRequired);
    }
    var existedUser := users.FindOne(req.username, req.email);
    if existedUser != null {
      return Err(UserExists);
    }
    var avatarPath := AvatarLocalPath(req.files);
    if avatarPath.Err? {
      return Err(avatarPath.error);
    }
    var avatarLocalPath := avatarPath.value;
    var coverImageLocalPath := CoverImageLocalPath(req.files);
    if avatarLocalPath.None? || avatarLocalPath.value == "" {
      return Err(AvatarRequired);
    }
    var avatar := UploadOnCloudinary(avatarLocalPath, avatarUpload);
    var coverImage := UploadOnCloudinary(coverImageLocalPath, coverUpload);
    if avatar.None? {
      return Err(AvatarRequired);
    }
    if req.username.None? {
      return Err(TypeErrorThrown);
    }
    var draft := NewUser(req.fullName, avatar.value, if coverImage.Some? then coverImage.value else "",
                         req.email, req.password, Text.ToLower(req.username.value));
    var user := users.Create(draft, false, salt);
    if user.Err? {
      return Err(user.error);
    }
    var createdUser := users.FindById(user.value);
    assert createdUser != null;
    r := Ok(View(createdUser.id, createdUser.data));
  }

  /** `loginUser` at time `now`. */
  method LoginUser(users: Users, req: LoginRequest, now: int, salt: Bcrypt.Salt) returns (r: Result<LoginResult, Failure>)
    requires users.Valid()
    modifies users
    ensures users.Valid()
    ensures (r, users.State()) == Login(old(users.State()), users.config, req, now)
  {
    LoginPreservesInvariant(users.State(), users.config, req, now);
    if !(Truthy(req.username) || Truthy(req.email)) {
      return Err(UsernameOrEmailRequired);
    }
    var user := users.FindOne(req.username, req.email);
    if user == null {
      return Err(UserNotFound);
    }
    var isPasswordValid := IsPasswordCorrect(user.data, req.password);
    if isPasswordValid.Err? {
      return Err(isPasswordValid.error);
    }
    if !isPasswordValid.value {
      return Err(InvalidCredentials);
    }
    var tokens := GenerateAccessAndRefreshToken(users, user.id, now, salt);
    assert tokens.Ok?;
    var loggedInUser := users.FindById(user.id);
    assert loggedInUser != null;
    r := Ok(LoginResult(View(loggedInUser.id, loggedInUser.data), tokens.value));
  }

  /** `logoutUser` for the account the authentication middleware put in `req.user`, with the update clearing the
      slot (see `Session.LogoutAsWritten` for the update as written). It always answers 200. */
  method LogoutUser(users: Users, userId: Id)
    requires users.Valid()
    modifies users
    ensures users.Valid()
    ensures users.State() == Logout(old(users.State()), userId)
  {
    LogoutPreservesInvariant(users.State(), users.config, userId);
    users.ClearRefreshToken(userId);
  }

  /** `refreshAccessToken` as written, at time `now`. It never writes the collection. */
  method RefreshAccessToken(users: Users, req: RefreshRequest, now: int) returns (r: Result<TokenPair, Failure>)
    ensures r == Session.RefreshAccessToken(users.State(), users.config, req, now)
  {
    var incomingRefreshToken := IncomingRefreshToken(req);
    if !Presented(incomingRefreshToken) {
      return Err(UnauthorizedRequest);
    }
    var decodedToken := Jwt.Verify(incomingRefreshToken.value, users.config.refreshSecret, now);
    if decodedToken.Err? {
      return Err(JwtRejected(decodedToken.error));
    }
    var user := users.FindById(decodedToken.value.id);
    if user == null {
      return Err(InvalidRefreshToken);
    }
    // Inside the `try`: the same verification and the same lookup, with the same answers.
    var decodedAgain := Jwt.Verify(incomingRefreshToken.value, users.config.refreshSecret, now);
    assert decodedAgain == decodedToken;
    var userAgain := users.FindById(decodedAgain.value.id);
    assert userAgain != null && userAgain.data == user.data;
    if incomingRefreshToken != userAgain.data.refreshToken {
      return Err(RefreshTokenExpiredOrUsed);
    }
    r := Err(HelperNotDefined);
  }

  /** The rotation `refreshAccessToken` evidently intends: the same guards, then the token helper. */
  method RotateRefreshToken(users: Users, req: RefreshRequest, now: int, salt: Bcrypt.Salt)
    returns (r: Result<TokenPair, Failure>)
    requires users.Valid()
    modifies users
    ensures users.Valid()
    ensures (r, users.State()) == Session.RotateRefreshToken(old(users.State()), users.config, req, now)
  {
    var incomingRefreshToken := IncomingRefreshToken(req);
    if !Presented(incomingRefreshToken) {
      return Err(UnauthorizedRequest);
    }
    var decodedToken := Jwt.Verify(incomingRefreshToken.value, users.config.refreshSecret, now);
    if decodedToken.Err? {
      return Err(JwtRejected(decodedToken.error));
    }
    var user := users.FindById(decodedToken.value.id);
    if user == null {
      return Err(InvalidRefreshToken);
    }
    if incomingRefreshToken != user.data.refreshToken {
      return Err(RefreshTokenExpiredOrUsed);
    }
    r := GenerateAccessAndRefreshToken(users, user.id, now, salt);
  }
}
