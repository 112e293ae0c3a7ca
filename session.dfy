/** The four handlers of the user controller and their shared token helper, as functions from the collection
    and the request to the response and the new collection; and the properties the handlers promise. */
module Session {
  import opened Common
  import opened ApiErrors
  import opened UserModel
  import opened UserStore
  import Text
  import Jwt
  import Bcrypt

  // ---------------------------------------------------------------- generateAccessAndRefreshToken

  datatype TokenPair = TokenPair(accessToken: Jwt.Token, refreshToken: Jwt.Token)

  /** `generateAccessAndRefreshToken(id)`: load the account, sign both tokens from it at time `now`, store the
      refresh token in the account's slot and save (only `refreshToken` is modified, so the hook keeps the
      password hash). Any failure, a missing account included, becomes a 500. */
  function Issue(db: Db, cfg: TokenConfig, id: Id, now: int): (Result<TokenPair, Failure>, Db)
  {
    if id !in db.accounts then (Err(TokenGenerationFailed), db)
    else
      var a := db.accounts[id];
      var refreshToken := GenerateRefreshToken(id, cfg, now);
      (Ok(TokenPair(GenerateAccessToken(id, a, cfg, now), refreshToken)),
       db.(accounts := db.accounts[id := a.(refreshToken := Some(refreshToken))]))
  }

  /** The helper hands back exactly the refresh token it stored, overwriting the previous slot value, and
      changes nothing else: no other account, no other path of this one. */
  lemma IssueStoresReturnedToken(db: Db, cfg: TokenConfig, id: Id, now: int)
    ensures var (r, db') := Issue(db, cfg, id, now);
      && (r.Err? <==> id !in db.accounts)
      && (r.Err? ==> db' == db)
      && (r.Ok? ==>
            && db'.accounts.Keys == db.accounts.Keys && db'.nextId == db.nextId
            && db'.accounts[id].refreshToken == Some(r.value.refreshToken)
            && db'.accounts[id].(refreshToken := db.accounts[id].refreshToken) == db.accounts[id]
            && (forall j :: j in db.accounts && j != id ==> db'.accounts[j] == db.accounts[j])
            && r.value.accessToken == GenerateAccessToken(id, db.accounts[id], cfg, now)
            && r.value.refreshToken == GenerateRefreshToken(id, cfg, now))
  {
  }

  /** Issuing keeps the collection invariant: the new slot value is a refresh token for this very account. */
  lemma IssuePreservesInvariant(db: Db, cfg: TokenConfig, id: Id, now: int)
    requires Invariant(db, cfg)
    ensures Invariant(Issue(db, cfg, id, now).1, cfg)
  {
    var db' := Issue(db, cfg, id, now).1;
    if id in db.accounts {
      forall i, j | i in db'.accounts && j in db'.accounts && i != j
        ensures db'.accounts[i].username != db'.accounts[j].username && db'.accounts[i].email != db'.accounts[j].email
      {
        assert db'.accounts[i].username == db.accounts[i].username && db'.accounts[i].email == db.accounts[i].email;
        assert db'.accounts[j].username == db.accounts[j].username && db'.accounts[j].email == db.accounts[j].email;
      }
    }
  }

  // ---------------------------------------------------------------- registerUser

  /** What multer leaves in `req.files` for the `avatar` and `coverImage` fields: the stored paths of the files
      received under each field name, or nothing when no file came under that name. */
  datatype Files = Files(avatar: Option<seq<string>>, coverImage: Option<seq<string>>)

  /** The registration request: the body's fields as sent (absent ones are absent) and `req.files`, which is
      absent for a request that is not multipart. */
  datatype RegisterRequest = RegisterRequest(
    fullName: Option<string>,
    email: Option<string>,
    username: Option<string>,
    password: Option<string>,
    files: Option<Files>)

  /** `field?.trim() === ""`: the field is present and blank. An absent field is not blank. */
  predicate Blank(field: Option<string>)
  {
    field.Some? && Text.Trim(field.value) == ""
  }

  /** `[fullName, email, username, password].some(...)` with the test above. */
  predicate AnyBlank(req: RegisterRequest)
  {
    Blank(req.fullName) || Blank(req.email) || Blank(req.username) || Blank(req.password)
  }

  /** `req.files?.avatar[0]?.path`: nothing when there is no `req.files` or the avatar list is empty; a
      TypeError when `req.files` exists but has no avatar list, since the code indexes `undefined`. */
  function AvatarLocalPath(files: Option<Files>): Result<Option<string>, Failure>
  {
    match files
    case None => Ok(None)
    case Some(f) =>
      match f.avatar
      case None => Err(TypeErrorThrown)
      case Some(paths) => if |paths| == 0 then Ok(None) else Ok(Some(paths[0]))
  }

  /** The guarded read of the first cover image's path. */
  function CoverImageLocalPath(files: Option<Files>): Option<string>
  {
    if files.Some? && files.value.coverImage.Some? && |files.value.coverImage.value| > 0
    then Some(files.value.coverImage.value[0])
    else None
  }

  /** `uploadOnCloudinary(localPath)`: null without a path (or with an empty one); otherwise whatever the
      upload service answered, `outcome`: the URL it returned, or nothing when the upload failed. */
  function UploadOnCloudinary(localPath: Option<string>, outcome: Option<string>): Option<string>
  {
    if localPath.None? || localPath.value == "" then None else outcome
  }

  /** `registerUser`. `avatarUpload` and `coverUpload` are what the upload service answers for each file;
      `salt` is what bcrypt draws; `coverRequired` says whether the schema requires coverImage. */
  function Register(db: Db, req: RegisterRequest, avatarUpload: Option<string>, coverUpload: Option<string>,
                    salt: Bcrypt.Salt, coverRequired: bool): (Result<PublicView, Failure>, Db)
  {
    if AnyBlank(req) then (Err(AllFieldsRequired), db)
    else if FindFirst(db, req.username, req.email).Some? then (Err(UserExists), db)
    else if AvatarLocalPath(req.files).Err? then (Err(AvatarLocalPath(req.files).error), db)
    else
      var avatarLocalPath := AvatarLocalPath(req.files).value;
      if avatarLocalPath.None? || avatarLocalPath.value == "" then (Err(AvatarRequired), db)
      else
        var avatar := UploadOnCloudinary(avatarLocalPath, avatarUpload);
        var coverImage := UploadOnCloudinary(CoverImageLocalPath(req.files), coverUpload);
        if avatar.None? then (Err(AvatarRequired), db)
        else if req.username.None? then (Err(TypeErrorThrown), db)
        else
          var draft := NewUser(req.fullName, avatar.value, if coverImage.Some? then coverImage.value else "",
                               req.email, req.password, Text.ToLower(req.username.value));
          var (created, db') := CreateSpec(db, draft, coverRequired, salt);
          if created.Err? then (Err(created.error), db')
          else (Ok(View(created.value, db'.accounts[created.value])), db')
  }

  /** A failed registration creates nothing. */
  lemma RegisterFailureChangesNothing(db: Db, req: RegisterRequest, avatarUpload: Option<string>,
                                      coverUpload: Option<string>, salt: Bcrypt.Salt, coverRequired: bool)
    ensures Register(db, req, avatarUpload, coverUpload, salt, coverRequired).0.Err? ==>
      Register(db, req, avatarUpload, coverUpload, salt, coverRequired).1 == db
  {
  }

  /** 400 "All fields are required" exactly when a field is present but blank after trimming; absent fields do
      not trip this check. */
  lemma RegisterRejectsBlankFields(db: Db, req: RegisterRequest, avatarUpload: Option<string>,
                                   coverUpload: Option<string>, salt: Bcrypt.Salt, coverRequired: bool)
    ensures Register(db, req, avatarUpload, coverUpload, salt, coverRequired).0 == Err(AllFieldsRequired)
            <==> AnyBlank(req)
    ensures Status(AllFieldsRequired) == 400
  {
  }

  /** Past the blank check, 409 "User already exists" exactly when some account has the request's username or
      email, each lower-cased and trimmed, and the collection is left as it was. */
  lemma RegisterRejectsExistingUser(db: Db, req: RegisterRequest, avatarUpload: Option<string>,
                                    coverUpload: Option<string>, salt: Bcrypt.Salt, coverRequired: bool)
    requires IdsBelow(db)
    requires !AnyBlank(req)
    ensures Register(db, req, avatarUpload, coverUpload, salt, coverRequired).0 == Err(UserExists) <==>
      exists id :: id in db.accounts && MatchesQuery(db.accounts[id], req.username, req.email)
    ensures Register(db, req, avatarUpload, coverUpload, salt, coverRequired).0 == Err(UserExists) ==>
      Register(db, req, avatarUpload, coverUpload, salt, coverRequired).1 == db
    ensures Status(UserExists) == 409
  {
    FindFirstSpec(db, req.username, req.email);
  }

  /** The duplicate check compares the values the insert would store, so a registration that passes it never
      reaches the unique indexes' 500. */
  lemma RegisterNeverHitsUniqueIndex(db: Db, req: RegisterRequest, avatarUpload: Option<string>,
                                     coverUpload: Option<string>, salt: Bcrypt.Salt, coverRequired: bool)
    requires IdsBelow(db)
    ensures Register(db, req, avatarUpload, coverUpload, salt, coverRequired).0 != Err(DuplicateKey)
  {
    if !AnyBlank(req) && FindFirst(db, req.username, req.email).None? && AvatarLocalPath(req.files).Ok?
       && req.username.Some?
    {
      FindFirstSpec(db, req.username, req.email);
      var u := req.username.value;
      Text.ToLowerIsLower(u);
      Text.ToLowerOfLower(Text.ToLower(u));
      assert Text.Normalize(Text.ToLower(u)) == Text.Normalize(u);
      var avatar := UploadOnCloudinary(AvatarLocalPath(req.files).value, avatarUpload);
      var cover := UploadOnCloudinary(CoverImageLocalPath(req.files), coverUpload);
      if avatar.Some? {
        var draft := NewUser(req.fullName, avatar.value, if cover.Some? then cover.value else "",
                             req.email, req.password, Text.ToLower(u));
        ValidateSpec(draft, coverRequired);
        if Validate(draft, coverRequired).Ok? {
          var saved := PreSaveHook(Validate(draft, coverRequired).value, CreatedPaths, salt);
          forall j | j in db.accounts ensures !Clashes(db.accounts[j], saved) {
            assert !MatchesQuery(db.accounts[j], req.username, req.email);
          }
        }
      }
    }
  }

  /** Past the first two checks, and when `req.files` can be read, 400 "Avatar file is required" exactly when
      the avatar upload yields nothing: there is no avatar path, or the upload failed. */
  lemma RegisterRequiresAvatar(db: Db, req: RegisterRequest, avatarUpload: Option<string>,
                               coverUpload: Option<string>, salt: Bcrypt.Salt, coverRequired: bool)
    requires !AnyBlank(req) && FindFirst(db, req.username, req.email).None?
    requires AvatarLocalPath(req.files).Ok?
    ensures Register(db, req, avatarUpload, coverUpload, salt, coverRequired).0 == Err(AvatarRequired) <==>
      UploadOnCloudinary(AvatarLocalPath(req.files).value, avatarUpload).None?
    ensures Status(AvatarRequired) == 400
  {
  }

  /** A successful registration: every field was present and not blank, no account had the request's username
      or email, each lower-cased and trimmed, the avatar upload gave a URL; exactly one account was added, under a new id, with the lower-cased
      trimmed username and email, the trimmed full name, the avatar URL, the cover URL or "" without one, the
      hashed password and no refresh token; the response is that account without password and refreshToken. */
  lemma RegisterSuccess(db: Db, req: RegisterRequest, avatarUpload: Option<string>,
                        coverUpload: Option<string>, salt: Bcrypt.Salt, coverRequired: bool)
    requires IdsBelow(db)
    requires Register(db, req, avatarUpload, coverUpload, salt, coverRequired).0.Ok?
    ensures var (r, db') := Register(db, req, avatarUpload, coverUpload, salt, coverRequired);
      var id := r.value.id;
      var cover := UploadOnCloudinary(CoverImageLocalPath(req.files), coverUpload);
      && req.fullName.Some? && req.email.Some? && req.username.Some? && req.password.Some?
      && !AnyBlank(req)
      && (forall j :: j in db.accounts ==> !MatchesQuery(db.accounts[j], req.username, req.email))
      && avatarUpload.Some?
      && id == db.nextId && id !in db.accounts
      && db'.accounts.Keys == db.accounts.Keys + {id}
      && db'.nextId == db.nextId + 1
      && (forall j :: j in db.accounts ==> db'.accounts[j] == db.accounts[j])
      && db'.accounts[id] == Account(
           Text.Normalize(req.username.value), Text.Normalize(req.email.value), Text.Trim(req.fullName.value),
           avatarUpload.value, if cover.Some? then cover.value else "",
           Hashed(Bcrypt.Hash(req.password.value, salt)), None)
      && r.value == View(id, db'.accounts[id])
  {
    var (r, db') := Register(db, req, avatarUpload, coverUpload, salt, coverRequired);
    FindFirstSpec(db, req.username, req.email);
    var u := req.username.value;
    Text.ToLowerIsLower(u);
    Text.ToLowerOfLower(Text.ToLower(u));
    assert Text.Normalize(Text.ToLower(u)) == Text.Normalize(u);
    var avatar := UploadOnCloudinary(AvatarLocalPath(req.files).value, avatarUpload);
    var cover := UploadOnCloudinary(CoverImageLocalPath(req.files), coverUpload);
    var draft := NewUser(req.fullName, avatar.value, if cover.Some? then cover.value else "",
                         req.email, req.password, Text.ToLower(u));
    CreateSpecEffect(db, draft, coverRequired, salt);
    ValidateSpec(draft, coverRequired);
  }

  /** Registration keeps the collection invariant. */
  lemma RegisterPreservesInvariant(db: Db, cfg: TokenConfig, req: RegisterRequest, avatarUpload: Option<string>,
                                   coverUpload: Option<string>, salt: Bcrypt.Salt, coverRequired: bool)
    requires Invariant(db, cfg)
    ensures Invariant(Register(db, req, avatarUpload, coverUpload, salt, coverRequired).1, cfg)
  {
    var r := Register(db, req, avatarUpload, coverUpload, salt, coverRequired).0;
    if r.Ok? {
      var avatar := UploadOnCloudinary(AvatarLocalPath(req.files).value, avatarUpload);
      var cover := UploadOnCloudinary(CoverImageLocalPath(req.files), coverUpload);
      var draft := NewUser(req.fullName, avatar.value, if cover.Some? then cover.value else "",
                           req.email, req.password, Text.ToLower(req.username.value));
      CreatePreservesValid(db, cfg, draft, coverRequired, salt);
    }
  }

  /** With the schema as written (coverImage required), a registration succeeds only when a cover image was sent
      and its upload returned a non-empty URL: the "" the handler stores for a missing cover fails `required`. */
  lemma RegisterAsWrittenNeedsCoverImage(db: Db, req: RegisterRequest, avatarUpload: Option<string>,
                                         coverUpload: Option<string>, salt: Bcrypt.Salt)
    ensures Register(db, req, avatarUpload, coverUpload, salt, true).0.Ok? ==>
      && CoverImageLocalPath(req.files).Some?
      && UploadOnCloudinary(CoverImageLocalPath(req.files), coverUpload).Some?
      && UploadOnCloudinary(CoverImageLocalPath(req.files), coverUpload).value != ""
  {
    var r := Register(db, req, avatarUpload, coverUpload, salt, true).0;
    if r.Ok? {
      var avatar := UploadOnCloudinary(AvatarLocalPath(req.files).value, avatarUpload);
      var cover := UploadOnCloudinary(CoverImageLocalPath(req.files), coverUpload);
      var draft := NewUser(req.fullName, avatar.value, if cover.Some? then cover.value else "",
                           req.email, req.password, Text.ToLower(req.username.value));
      ValidateSpec(draft, true);
    }
  }

  /** The request of the example below: a complete registration with an avatar and no cover image. */
  function CoverlessRequest(): RegisterRequest
  {
    RegisterRequest(Some("Alice"), Some("alice@example.com"), Some("alice"), Some("secret"),
                    Some(Files(Some(["avatar.png"]), None)))
  }

  /** The request passes the handler's own checks, and the document it builds has every path filled but
      coverImage, which is "". */
  lemma CoverlessRequestReachesCreate(db: Db, avatarUrl: string)
    requires db.accounts == map[]
    requires avatarUrl != ""
    ensures var req := CoverlessRequest();
      var draft := NewUser(req.fullName, avatarUrl, "", req.email, req.password, Text.ToLower("alice"));
      && !AnyBlank(req)
      && FindFirst(db, req.username, req.email).None?
      && AvatarLocalPath(req.files) == Ok(Some("avatar.png"))
      && UploadOnCloudinary(CoverImageLocalPath(req.files), None) == None
      && MissingPaths(draft, true) == {CoverImage}
      && PassesRequired(draft, false)
  {
    Text.NotBlank("Alice");
    Text.NotBlank("alice@example.com");
    Text.NotBlank("alice");
    Text.NotBlank("secret");
    Text.ToLowerOfLower("alice");
    FindFirstSpec(db, Some("alice"), Some("alice@example.com"));
  }

  /** On that request into an empty collection: with coverImage required, registration ends in a validation
      error that names coverImage (a 500); with it optional, the account is created. */
  lemma CoverlessRegistrationExample()
    ensures var db, url := Db(map[], 0), "https://cdn.example/avatar.png";
      && Register(db, CoverlessRequest(), Some(url), None, 7, true).0 == Err(ValidationFailed({CoverImage}))
      && Register(db, CoverlessRequest(), Some(url), None, 7, false).0.Ok?
    ensures Status(ValidationFailed({CoverImage})) == 500
  {
    var db, url := Db(map[], 0), "https://cdn.example/avatar.png";
    CoverlessRequestReachesCreate(db, url);
    var req := CoverlessRequest();
    var draft := NewUser(req.fullName, url, "", req.email, req.password, Text.ToLower("alice"));
    assert Validate(draft, true) == Err({CoverImage});
    assert Validate(draft, false).Ok?;
    assert !Collides(db, PreSaveHook(Validate(draft, false).value, CreatedPaths, 7));
  }

  // ---------------------------------------------------------------- loginUser

  /** The login body. */
  datatype LoginRequest = LoginRequest(email: Option<string>, username: Option<string>, password: Option<string>)

  /** JavaScript truthiness of a string field: present and not empty. */
  predicate Truthy(v: Option<string>)
  {
    v.Some? && v.value != ""
  }

  /** What a successful login answers: the account without password and refreshToken, and both tokens. */
  datatype LoginResult = LoginResult(user: PublicView, tokens: TokenPair)

  /** `loginUser` at time `now`. */
  function Login(db: Db, cfg: TokenConfig, req: LoginRequest, now: int): (Result<LoginResult, Failure>, Db)
  {
    if !(Truthy(req.username) || Truthy(req.email)) then (Err(UsernameOrEmailRequired), db)
    else
      var found := FindFirst(db, req.username, req.email);
      if found.None? then (Err(UserNotFound), db)
      else
        var id := found.value;
        var check := IsPasswordCorrect(db.accounts[id], req.password);
        if check.Err? then (Err(check.error), db)
        else if !check.value then (Err(InvalidCredentials), db)
        else
          var (issued, db') := Issue(db, cfg, id, now);
          if issued.Err? then (Err(issued.error), db')
          else (Ok(LoginResult(View(id, db'.accounts[id]), issued.value)), db')
  }

  /** 400 when neither username nor email is given, 404 when no account has either, 401 when the password does
      not match (500 when it is missing); none of these changes the collection. */
  lemma LoginRejections(db: Db, cfg: TokenConfig, req: LoginRequest, now: int)
    requires IdsBelow(db)
    ensures Login(db, cfg, req, now).0.Err? ==> Login(db, cfg, req, now).1 == db
    ensures Login(db, cfg, req, now).0 == Err(UsernameOrEmailRequired) <==> !(Truthy(req.username) || Truthy(req.email))
    ensures (Truthy(req.username) || Truthy(req.email)) ==>
      (Login(db, cfg, req, now).0 == Err(UserNotFound) <==>
        forall id :: id in db.accounts ==> !MatchesQuery(db.accounts[id], req.username, req.email))
    ensures (Truthy(req.username) || Truthy(req.email)) && FindFirst(db, req.username, req.email).Some? ==>
      var a := db.accounts[FindFirst(db, req.username, req.email).value];
      && (Login(db, cfg, req, now).0 == Err(InvalidCredentials) <==> IsPasswordCorrect(a, req.password) == Ok(false))
      && (Login(db, cfg, req, now).0 == Err(BcryptArgumentMissing) <==> req.password.None?)
    ensures Status(UsernameOrEmailRequired) == 400 && Status(UserNotFound) == 404 && Status(InvalidCredentials) == 401
  {
    FindFirstSpec(db, req.username, req.email);
  }

  /** After a successful login the account's slot holds the refresh token handed to the caller, whatever it held
      before; the password matched; no other account and no other path changed. */
  lemma LoginStoresReturnedToken(db: Db, cfg: TokenConfig, req: LoginRequest, now: int)
    requires Login(db, cfg, req, now).0.Ok?
    ensures var (r, db') := Login(db, cfg, req, now);
      var id := r.value.user.id;
      && id in db.accounts && MatchesQuery(db.accounts[id], req.username, req.email)
      && IsPasswordCorrect(db.accounts[id], req.password) == Ok(true)
      && db'.accounts.Keys == db.accounts.Keys && db'.nextId == db.nextId
      && db'.accounts[id] == db.accounts[id].(refreshToken := Some(r.value.tokens.refreshToken))
      && (forall j :: j in db.accounts && j != id ==> db'.accounts[j] == db.accounts[j])
      && r.value.tokens == TokenPair(GenerateAccessToken(id, db.accounts[id], cfg, now), GenerateRefreshToken(id, cfg, now))
      && r.value.user == View(id, db.accounts[id])
  {
  }

  /** Login keeps the collection invariant. */
  lemma LoginPreservesInvariant(db: Db, cfg: TokenConfig, req: LoginRequest, now: int)
    requires Invariant(db, cfg)
    ensures Invariant(Login(db, cfg, req, now).1, cfg)
  {
    var found := FindFirst(db, req.username, req.email);
    if found.Some? {
      IssuePreservesInvariant(db, cfg, found.value, now);
    }
  }

  // ---------------------------------------------------------------- logoutUser

  /** The value an update's `$set` gives the `refreshToken` path. */
  datatype SetValue = SetNull | SetUndefined

  /** `User.findByIdAndUpdate(id, {$set: {refreshToken: v}})`. Casting the update drops every key whose value is
      `undefined` (Mongoose 6 and later always do), and an update left empty changes nothing; `null` empties the
      slot. An id with no account changes nothing either. */
  function FindByIdAndUpdate(db: Db, id: Id, v: SetValue): Db
  {
    if id !in db.accounts || v.SetUndefined? then db
    else db.(accounts := db.accounts[id := db.accounts[id].(refreshToken := None)])
  }

  /** `logoutUser` as written, for the account the authentication middleware identified: the update sets
      `refreshToken` to `undefined`, so once cast it is empty and the slot keeps its token. */
  function LogoutAsWritten(db: Db, id: Id): Db
  {
    FindByIdAndUpdate(db, id, SetUndefined)
  }

  /** `logoutUser` as evidently intended: the update sets `refreshToken` to `null` and the slot is cleared. */
  function Logout(db: Db, id: Id): Db
  {
    FindByIdAndUpdate(db, id, SetNull)
  }

  /** As written, logout does not end the session: the refresh token of the login before it still passes every
      refresh guard afterwards, for as long as it has not expired, and the intended rotation accepts it. */
  lemma LogoutAsWrittenKeepsSession(db: Db, cfg: TokenConfig, login: LoginRequest, loginTime: int, now: int)
    requires Login(db, cfg, login, loginTime).0.Ok?
    requires loginTime <= now < loginTime + cfg.refreshExpiry
    ensures var (r, db') := Login(db, cfg, login, loginTime);
      var id := r.value.user.id;
      var req := RefreshRequest(Some(r.value.tokens.refreshToken), None);
      && LogoutAsWritten(db', id) == db'
      && CheckRefresh(LogoutAsWritten(db', id), cfg, req, now) == Ok(id)
      && RotateRefreshToken(LogoutAsWritten(db', id), cfg, req, now).0.Ok?
      && CheckRefresh(Logout(db', id), cfg, req, now).Err?
  {
    var (r, db') := Login(db, cfg, login, loginTime);
    var req := RefreshRequest(Some(r.value.tokens.refreshToken), None);
    RefreshRefusedAfterNewerLogin(db, cfg, login, loginTime, req, now);
    RefreshTokenClaims(r.value.user.id, cfg, loginTime, now);
  }

  /** Logout empties the slot, touches nothing else, and doing it twice is doing it once. */
  lemma LogoutClearsSlot(db: Db, id: Id)
    ensures Logout(db, id).accounts.Keys == db.accounts.Keys && Logout(db, id).nextId == db.nextId
    ensures id in db.accounts ==> Logout(db, id).accounts[id] == db.accounts[id].(refreshToken := None)
    ensures forall j :: j in db.accounts && j != id ==> Logout(db, id).accounts[j] == db.accounts[j]
    ensures Logout(Logout(db, id), id) == Logout(db, id)
  {
  }

  /** Logout keeps the collection invariant. */
  lemma LogoutPreservesInvariant(db: Db, cfg: TokenConfig, id: Id)
    requires Invariant(db, cfg)
    ensures Invariant(Logout(db, id), cfg)
  {
    var db' := Logout(db, id);
    forall i, j | i in db'.accounts && j in db'.accounts && i != j
      ensures db'.accounts[i].username != db'.accounts[j].username && db'.accounts[i].email != db'.accounts[j].email
    {
      assert db'.accounts[i].username == db.accounts[i].username && db'.accounts[i].email == db.accounts[i].email;
      assert db'.accounts[j].username == db.accounts[j].username && db'.accounts[j].email == db.accounts[j].email;
    }
  }

  // ---------------------------------------------------------------- refreshAccessToken

  /** Where a refresh token may come from: the `refreshToken` cookie and the `refreshToken` body field. */
  datatype RefreshRequest = RefreshRequest(cookie: Option<Jwt.Token>, body: Option<Jwt.Token>)

  /** JavaScript truthiness of a token string: present and not the empty string. */
  predicate Presented(t: Option<Jwt.Token>)
  {
    t.Some? && t.value != Jwt.Text("")
  }

  /** `req.cookies.refreshToken || req.body.refreshToken`. */
  function IncomingRefreshToken(req: RefreshRequest): Option<Jwt.Token>
  {
    if Presented(req.cookie) then req.cookie else req.body
  }

  /** The guards of `refreshAccessToken`: a token must be presented (401); it must verify under the refresh
      secret, and since that first verification runs outside the `try` its failure is not turned into a 401 but
      reaches the default handler (500); the account its `_id` names must exist (401); and the token must be
      the one in that account's slot (401 "Refresh token is expired or used"). The repeated verification and
      lookup inside the `try` return what the first ones returned, so they add no outcome. The result is the id
      of the account to rotate. */
  function CheckRefresh(db: Db, cfg: TokenConfig, req: RefreshRequest, now: int): Result<Id, Failure>
  {
    var incoming := IncomingRefreshToken(req);
    if !Presented(incoming) then Err(UnauthorizedRequest)
    else
      match Jwt.Verify(incoming.value, cfg.refreshSecret, now)
      case Err(e) => Err(JwtRejected(e))
      case Ok(claims) =>
        if claims.id !in db.accounts then Err(InvalidRefreshToken)
        else if incoming != db.accounts[claims.id].refreshToken then Err(RefreshTokenExpiredOrUsed)
        else Ok(claims.id)
  }

  /** The guards let a request through exactly when it presents, unexpired and signed with the refresh secret,
      the very token stored in the slot of the account it names; each failing guard has its own answer. */
  lemma CheckRefreshSpec(db: Db, cfg: TokenConfig, req: RefreshRequest, now: int, id: Id)
    ensures CheckRefresh(db, cfg, req, now) == Ok(id) <==>
      && IncomingRefreshToken(req).Some?
      && var t := IncomingRefreshToken(req).value;
         && t.Signed? && t.key == cfg.refreshSecret && now < t.exp && t.claims.id == id
         && id in db.accounts && db.accounts[id].refreshToken == Some(t)
    ensures !Presented(IncomingRefreshToken(req)) ==> CheckRefresh(db, cfg, req, now) == Err(UnauthorizedRequest)
    ensures Presented(IncomingRefreshToken(req)) && Jwt.Verify(IncomingRefreshToken(req).value, cfg.refreshSecret, now).Err? ==>
      CheckRefresh(db, cfg, req, now) == Err(JwtRejected(Jwt.Verify(IncomingRefreshToken(req).value, cfg.refreshSecret, now).error))
    ensures Presented(IncomingRefreshToken(req)) && Jwt.Verify(IncomingRefreshToken(req).value, cfg.refreshSecret, now).Ok? ==>
      var sub := Jwt.Verify(IncomingRefreshToken(req).value, cfg.refreshSecret, now).value.id;
      && (sub !in db.accounts ==> CheckRefresh(db, cfg, req, now) == Err(InvalidRefreshToken))
      && (sub in db.accounts && db.accounts[sub].refreshToken != IncomingRefreshToken(req) ==>
            CheckRefresh(db, cfg, req, now) == Err(RefreshTokenExpiredOrUsed))
  {
  }

  /** `refreshAccessToken` as written: past the guards, line 259 calls `generateAccessAndRefereshTokens`, a name
      that is not defined, and the ReferenceError is caught and answered with a 401. */
  function RefreshAccessToken(db: Db, cfg: TokenConfig, req: RefreshRequest, now: int): Result<TokenPair, Failure>
  {
    match CheckRefresh(db, cfg, req, now)
    case Err(e) => Err(e)
    case Ok(_) => Err(HelperNotDefined)
  }

  /** As written, a refresh never succeeds: a request that passes every guard is answered 401 all the same, and
      the collection is never written. */
  lemma RefreshAsWrittenNeverSucceeds(db: Db, cfg: TokenConfig, req: RefreshRequest, now: int)
    ensures RefreshAccessToken(db, cfg, req, now).Err?
    ensures RefreshAccessToken(db, cfg, req, now) == Err(HelperNotDefined) <==> CheckRefresh(db, cfg, req, now).Ok?
    ensures CheckRefresh(db, cfg, req, now).Err? ==> RefreshAccessToken(db, cfg, req, now) == Err(CheckRefresh(db, cfg, req, now).error)
    ensures Status(HelperNotDefined) == 401
  {
  }

  /** The request that shows it: right after a login, presenting the refresh token that login returned. It passes
      every guard, and is answered 401 as written, while the intended rotation succeeds. */
  lemma RefreshAfterLoginExample(db: Db, cfg: TokenConfig, login: LoginRequest, loginTime: int, now: int)
    requires Login(db, cfg, login, loginTime).0.Ok?
    requires loginTime <= now < loginTime + cfg.refreshExpiry
    ensures var (r, db') := Login(db, cfg, login, loginTime);
      var req := RefreshRequest(Some(r.value.tokens.refreshToken), None);
      && CheckRefresh(db', cfg, req, now) == Ok(r.value.user.id)
      && RefreshAccessToken(db', cfg, req, now) == Err(HelperNotDefined)
      && RotateRefreshToken(db', cfg, req, now).0.Ok?
  {
    var (r, db') := Login(db, cfg, login, loginTime);
    var req := RefreshRequest(Some(r.value.tokens.refreshToken), None);
    RefreshRefusedAfterNewerLogin(db, cfg, login, loginTime, req, now);
  }

  /** The rotation the handler evidently intends: the same guards, then the helper of lines 8-25, returning
      the pair it issued. */
  function RotateRefreshToken(db: Db, cfg: TokenConfig, req: RefreshRequest, now: int): (Result<TokenPair, Failure>, Db)
  {
    match CheckRefresh(db, cfg, req, now)
    case Err(e) => (Err(e), db)
    case Ok(id) => Issue(db, cfg, id, now)
  }

  /** A rotation that passes the guards stores the refresh token it returns in the presenting account's slot. */
  lemma RotateStoresReturnedToken(db: Db, cfg: TokenConfig, req: RefreshRequest, now: int)
    ensures RotateRefreshToken(db, cfg, req, now).0.Ok? <==> CheckRefresh(db, cfg, req, now).Ok?
    ensures RotateRefreshToken(db, cfg, req, now).0.Err? ==> RotateRefreshToken(db, cfg, req, now).1 == db
    ensures CheckRefresh(db, cfg, req, now).Ok? ==>
      var id := CheckRefresh(db, cfg, req, now).value;
      var (r, db') := RotateRefreshToken(db, cfg, req, now);
      && db'.accounts[id] == db.accounts[id].(refreshToken := Some(r.value.refreshToken))
      && r.value.refreshToken == GenerateRefreshToken(id, cfg, now)
      && (forall j :: j in db.accounts && j != id ==> db'.accounts[j] == db.accounts[j])
  {
  }

  /** Rotation keeps the collection invariant. */
  lemma RotatePreservesInvariant(db: Db, cfg: TokenConfig, req: RefreshRequest, now: int)
    requires Invariant(db, cfg)
    ensures Invariant(RotateRefreshToken(db, cfg, req, now).1, cfg)
  {
    var c := CheckRefresh(db, cfg, req, now);
    if c.Ok? {
      IssuePreservesInvariant(db, cfg, c.value, now);
    }
  }

  /** After logout, no token naming that account gets past the guards, so neither refresh succeeds. */
  lemma RefreshRefusedAfterLogout(db: Db, cfg: TokenConfig, id: Id, req: RefreshRequest, now: int)
    requires IncomingRefreshToken(req).Some? && Jwt.Subject(IncomingRefreshToken(req).value) == Some(id)
    ensures CheckRefresh(Logout(db, id), cfg, req, now).Err?
    ensures RefreshAccessToken(Logout(db, id), cfg, req, now).Err?
    ensures RotateRefreshToken(Logout(db, id), cfg, req, now) == (Err(CheckRefresh(Logout(db, id), cfg, req, now).error), Logout(db, id))
  {
  }

  /** After a newer login, the only token naming that account that gets past the guards is the one the login
      returned, for as long as it has not expired: any older token is refused. */
  lemma RefreshRefusedAfterNewerLogin(db: Db, cfg: TokenConfig, login: LoginRequest, loginTime: int,
                                      req: RefreshRequest, now: int)
    requires Login(db, cfg, login, loginTime).0.Ok?
    requires IncomingRefreshToken(req).Some?
    requires Jwt.Subject(IncomingRefreshToken(req).value) == Some(Login(db, cfg, login, loginTime).0.value.user.id)
    ensures var (r, db') := Login(db, cfg, login, loginTime);
      && (IncomingRefreshToken(req).value != r.value.tokens.refreshToken ==> CheckRefresh(db', cfg, req, now).Err?)
      && (IncomingRefreshToken(req).value == r.value.tokens.refreshToken && loginTime <= now < loginTime + cfg.refreshExpiry ==>
            CheckRefresh(db', cfg, req, now) == Ok(r.value.user.id))
  {
    LoginStoresReturnedToken(db, cfg, login, loginTime);
  }

  /** A stored refresh token rotates once: presented again after its rotation, in the same second or later, it is
      refused (as used while it is unexpired, as expired afterwards). Tokens are signed deterministically, so this
      needs the token to have been issued in an earlier second than the rotation. */
  lemma RotationIsSingleUse(db: Db, cfg: TokenConfig, req: RefreshRequest, now: int, later: int)
    requires Invariant(db, cfg)
    requires CheckRefresh(db, cfg, req, now).Ok?
    requires IncomingRefreshToken(req).value.iat < now <= later
    ensures RotateRefreshToken(db, cfg, req, now).0.Ok?
    ensures var t := IncomingRefreshToken(req).value;
      var db' := RotateRefreshToken(db, cfg, req, now).1;
      RotateRefreshToken(db', cfg, req, later).0 ==
        (if later < t.exp then Err(RefreshTokenExpiredOrUsed) else Err(JwtRejected(Jwt.Expired)))
  {
    var id := CheckRefresh(db, cfg, req, now).value;
    var t := IncomingRefreshToken(req).value;
    assert db.accounts[id].refreshToken == Some(t);
    assert IssuedTo(db.accounts[id].refreshToken, id, cfg);
    var db' := RotateRefreshToken(db, cfg, req, now).1;
    assert db'.accounts[id].refreshToken == Some(GenerateRefreshToken(id, cfg, now));
    assert GenerateRefreshToken(id, cfg, now).iat == now;
  }

  /** Within the second its presented token was issued in, a rotation replays: the rotated token is the
      presented one again, so presenting it once more in that second passes every guard and yields the same
      pair, leaving the collection as the first rotation left it. Single use therefore holds only from the
      next second on, as `RotationIsSingleUse` states. */
  lemma SameSecondRotationReplays(db: Db, cfg: TokenConfig, req: RefreshRequest, now: int)
    requires Invariant(db, cfg)
    requires CheckRefresh(db, cfg, req, now).Ok?
    requires IncomingRefreshToken(req).value.iat == now
    ensures var (r, db') := RotateRefreshToken(db, cfg, req, now);
      && r.Ok? && Some(r.value.refreshToken) == IncomingRefreshToken(req)
      && RotateRefreshToken(db', cfg, req, now) == (r, db')
  {
    var id := CheckRefresh(db, cfg, req, now).value;
    var t := IncomingRefreshToken(req).value;
    assert db.accounts[id].refreshToken == Some(t);
    assert IssuedTo(db.accounts[id].refreshToken, id, cfg);
    assert t == GenerateRefreshToken(id, cfg, now);
    var db' := RotateRefreshToken(db, cfg, req, now).1;
    assert db'.accounts[id].refreshToken == Some(t);
    assert db'.accounts == db.accounts;
  }
}
