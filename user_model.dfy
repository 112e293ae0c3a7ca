/** The user schema: its field constraints, the document object with its `pre("save")` hook, the password check
    and the two token builders. */
module UserModel {
  import opened Common
  import opened ApiErrors
  import Text
  import Bcrypt
  import Jwt

  /** The `password` path holds the plaintext until the pre-save hook has replaced it by its bcrypt hash. */
  datatype PasswordField = Plain(text: string) | Hashed(digest: Bcrypt.Digest)

  /** A user document as stored. `refreshToken` is the optional single session slot. */
  datatype Account = Account(
    username: string,
    email: string,
    fullName: string,
    avatar: string,
    coverImage: string,
    password: PasswordField,
    refreshToken: Option<Jwt.Token>)

  /** The response shape of `.select("-password -refreshToken")`: the document without those two paths. */
  datatype PublicView = PublicView(
    id: Id,
    username: string,
    email: string,
    fullName: string,
    avatar: string,
    coverImage: string)

  function View(id: Id, a: Account): PublicView
  {
    PublicView(id, a.username, a.email, a.fullName, a.avatar, a.coverImage)
  }

  /** The object literal the controller hands to `User.create`: the request's fields as they came (absent ones
      stay absent), the uploaded URLs, and the username already passed through `toLowerCase`. */
  datatype NewUser = NewUser(
    fullName: Option<string>,
    avatar: string,
    coverImage: string,
    email: Option<string>,
    password: Option<string>,
    username: string)

  /** The paths a new document sets, hence the paths `isModified` reports on its first save. */
  const CreatedPaths: set<Path> := {Username, Email, FullName, Avatar, CoverImage, Password}

  /** The paths declared `required: true`. The schema as written lists coverImage among them; `coverRequired`
      selects between that and the schema with coverImage optional. */
  function RequiredPaths(coverRequired: bool): set<Path>
  {
    {Username, Email, FullName, Avatar, Password} + (if coverRequired then {CoverImage} else {})
  }

  /** Mongoose's `required` validator for a String path: the value is set and is not the empty string. */
  predicate Filled(v: Option<string>)
  {
    v.Some? && v.value != ""
  }

  /** The value a path takes once the schema's setters ran: `trim` on fullName, `lowercase` then `trim` on
      username and email. */
  function CastValue(d: NewUser, p: Path): Option<string>
  {
    match p
    case Username => Some(Text.Normalize(d.username))
    case Email => if d.email.Some? then Some(Text.Normalize(d.email.value)) else None
    case FullName => if d.fullName.Some? then Some(Text.Trim(d.fullName.value)) else None
    case Avatar => Some(d.avatar)
    case CoverImage => Some(d.coverImage)
    case Password => d.password
    case RefreshToken => None
  }

  /** `{p}` when `p` is required and its cast value fails the `required` validator, otherwise `{}`. */
  function FailsRequired(d: NewUser, coverRequired: bool, p: Path): set<Path>
  {
    if p in RequiredPaths(coverRequired) && !Filled(CastValue(d, p)) then {p} else {}
  }

  /** The required paths whose cast value fails the `required` validator. */
  function MissingPaths(d: NewUser, coverRequired: bool): set<Path>
  {
    FailsRequired(d, coverRequired, Username) + FailsRequired(d, coverRequired, Email)
    + FailsRequired(d, coverRequired, FullName) + FailsRequired(d, coverRequired, Avatar)
    + FailsRequired(d, coverRequired, CoverImage) + FailsRequired(d, coverRequired, Password)
  }

  /** Every required path is filled once the setters ran. */
  predicate PassesRequired(d: NewUser, coverRequired: bool)
  {
    && Filled(CastValue(d, Username)) && Filled(CastValue(d, Email)) && Filled(CastValue(d, FullName))
    && Filled(CastValue(d, Avatar)) && Filled(CastValue(d, Password))
    && (coverRequired ==> Filled(CastValue(d, CoverImage)))
  }

  /** Document construction and validation for `User.create`: the cast document, or the paths that fail
      `required` (Mongoose's ValidationError). */
  function Validate(d: NewUser, coverRequired: bool): Result<Account, set<Path>>
  {
    if !PassesRequired(d, coverRequired) then Err(MissingPaths(d, coverRequired))
    else
      Ok(Account(
        CastValue(d, Username).value, CastValue(d, Email).value, CastValue(d, FullName).value,
        d.avatar, d.coverImage, Plain(d.password.value), None))
  }

  /** Validation fails exactly when some required path is missing, and reports exactly those paths. */
  lemma MissingPathsExact(d: NewUser, coverRequired: bool)
    ensures MissingPaths(d, coverRequired) == {} <==> PassesRequired(d, coverRequired)
    ensures forall p :: p in MissingPaths(d, coverRequired) <==> p in RequiredPaths(coverRequired) && !Filled(CastValue(d, p))
  {
  }

  /** The schema's constraints on a stored account: username and email present, lower-case and trimmed; fullName
      present and trimmed; avatar present; the password replaced by its hash. */
  ghost predicate WellFormed(a: Account)
  {
    && a.username != "" && Text.IsLower(a.username) && Text.Trim(a.username) == a.username
    && a.email != "" && Text.IsLower(a.email) && Text.Trim(a.email) == a.email
    && a.fullName != "" && Text.Trim(a.fullName) == a.fullName
    && a.avatar != ""
    && a.password.Hashed?
  }

  /** A draft passes validation exactly when every required path is filled after the setters, and then the
      document carries the normalized values, the plaintext password and no refresh token. */
  lemma ValidateSpec(d: NewUser, coverRequired: bool)
    ensures Validate(d, coverRequired).Ok? <==>
      && d.email.Some? && d.fullName.Some? && d.password.Some?
      && Text.Normalize(d.username) != "" && Text.Normalize(d.email.value) != ""
      && Text.Trim(d.fullName.value) != "" && d.avatar != "" && d.password.value != ""
      && (coverRequired ==> d.coverImage != "")
    ensures Validate(d, coverRequired).Ok? ==>
      var a := Validate(d, coverRequired).value;
      && a.username == Text.Normalize(d.username) && a.email == Text.Normalize(d.email.value)
      && a.fullName == Text.Trim(d.fullName.value) && a.avatar == d.avatar && a.coverImage == d.coverImage
      && a.password == Plain(d.password.value) && a.refreshToken.None?
    ensures Validate(d, coverRequired).Err? ==> Validate(d, coverRequired).error == MissingPaths(d, coverRequired)
  {
  }

  /** The `pre("save")` hook: when the password path was modified, replace the plaintext by its hash with a fresh
      salt; otherwise leave the document as it is. */
  function PreSaveHook(a: Account, modified: set<Path>, salt: Bcrypt.Salt): Account
    requires Password in modified ==> a.password.Plain?
  {
    if Password !in modified then a
    else a.(password := Hashed(Bcrypt.Hash(a.password.text, salt)))
  }

  /** The hook changes the password only, and only when its path was modified; the new hash matches the
      plaintext it replaced. So saving after a token update (only `refreshToken` modified) keeps the hash. */
  lemma PreSaveHookEffect(a: Account, modified: set<Path>, salt: Bcrypt.Salt)
    requires Password in modified ==> a.password.Plain?
    ensures Password !in modified ==> PreSaveHook(a, modified, salt) == a
    ensures Password in modified ==>
      var b := PreSaveHook(a, modified, salt);
      && b.password.Hashed? && Bcrypt.Compare(a.password.text, b.password.digest)
      && b.(password := a.password) == a
  {
  }

  /** `isPasswordCorrect(password)`: `bcrypt.compare(password, this.password)`. bcrypt throws when the password
      argument is missing; a stored value that is not a bcrypt hash never matches. */
  function IsPasswordCorrect(a: Account, password: Option<string>): Result<bool, Failure>
  {
    if password.None? then Err(BcryptArgumentMissing)
    else
      match a.password
      case Hashed(d) => Ok(Bcrypt.Compare(password.value, d))
      case Plain(_) => Ok(false)
  }

  /** On a saved account the check is exactly bcrypt's compare, and a missing candidate throws. */
  lemma PasswordCheckIsCompare(a: Account, candidate: string)
    requires a.password.Hashed?
    ensures IsPasswordCorrect(a, Some(candidate)) == Ok(Bcrypt.Compare(candidate, a.password.digest))
    ensures IsPasswordCorrect(a, None) == Err(BcryptArgumentMissing)
  {
  }

  /** On an account first saved with plaintext `p`, the check accepts exactly the candidates that agree with `p`
      on the bytes bcrypt reads: `p` itself, and, when `p` is longer than bcrypt's key, anything with its prefix. */
  lemma SavedPasswordCheck(a: Account, salt: Bcrypt.Salt, candidate: string)
    requires a.password.Plain?
    ensures IsPasswordCorrect(PreSaveHook(a, CreatedPaths, salt), Some(candidate))
         == Ok(Bcrypt.Key(candidate) == Bcrypt.Key(a.password.text))
    ensures |a.password.text| <= Bcrypt.MaxKeyBytes && |candidate| <= Bcrypt.MaxKeyBytes ==>
      IsPasswordCorrect(PreSaveHook(a, CreatedPaths, salt), Some(candidate)) == Ok(candidate == a.password.text)
  {
  }

  /** The secrets and lifetimes (in seconds) read from the environment once at start-up. */
  datatype TokenConfig = TokenConfig(
    accessSecret: Jwt.Secret,
    accessExpiry: nat,
    refreshSecret: Jwt.Secret,
    refreshExpiry: nat)

  /** `generateAccessToken`: the document's `_id`, email, username and fullName, signed with the access secret. */
  function GenerateAccessToken(id: Id, a: Account, cfg: TokenConfig, now: int): Jwt.Token
  {
    Jwt.Sign(Jwt.AccessClaims(id, a.email, a.username, a.fullName), cfg.accessSecret, now, cfg.accessExpiry)
  }

  /** `generateRefreshToken`: the document's `_id` only, signed with the refresh secret. */
  function GenerateRefreshToken(id: Id, cfg: TokenConfig, now: int): Jwt.Token
  {
    Jwt.Sign(Jwt.RefreshClaims(id), cfg.refreshSecret, now, cfg.refreshExpiry)
  }

  /** An access token verifies under the access secret, for its lifetime only, to exactly the four claims. */
  lemma AccessTokenClaims(id: Id, a: Account, cfg: TokenConfig, now: int, t: int)
    requires now <= t
    ensures t < now + cfg.accessExpiry ==>
      Jwt.Verify(GenerateAccessToken(id, a, cfg, now), cfg.accessSecret, t)
        == Ok(Jwt.AccessClaims(id, a.email, a.username, a.fullName))
    ensures t >= now + cfg.accessExpiry ==>
      Jwt.Verify(GenerateAccessToken(id, a, cfg, now), cfg.accessSecret, t) == Err(Jwt.Expired)
  {
  }

  /** A refresh token verifies under the refresh secret, for its lifetime only, to the `_id` claim alone, so
      verifying it recovers the account id. */
  lemma RefreshTokenClaims(id: Id, cfg: TokenConfig, now: int, t: int)
    requires now <= t
    ensures t < now + cfg.refreshExpiry ==>
      Jwt.Verify(GenerateRefreshToken(id, cfg, now), cfg.refreshSecret, t) == Ok(Jwt.RefreshClaims(id))
    ensures t >= now + cfg.refreshExpiry ==>
      Jwt.Verify(GenerateRefreshToken(id, cfg, now), cfg.refreshSecret, t) == Err(Jwt.Expired)
    ensures Jwt.Subject(GenerateRefreshToken(id, cfg, now)) == Some(id)
  {
  }

  /** A user document in memory: the values of its paths and the set of paths modified since it was loaded or
      built. */
  class UserDocument {
    const id: Id
    var data: Account
    var modified: set<Path>

    /** Only a plaintext password is ever marked modified (the hook hashes what it finds there). */
    ghost predicate Valid()
      reads this
    {
      Password in modified ==> data.password.Plain?
    }

    /** A document read from the collection: nothing is modified yet. */
    constructor Hydrate(id: Id, stored: Account)
      ensures Valid()
      ensures this.id == id && data == stored && modified == {}
    {
      this.id := id;
      data := stored;
      modified := {};
    }

    /** `new User(fields)` inside `User.create`: every path it sets counts as modified. */
    constructor Build(id: Id, initial: Account)
      requires initial.password.Plain?
      ensures Valid()
      ensures this.id == id && data == initial && modified == CreatedPaths
    {
      this.id := id;
      data := initial;
      modified := CreatedPaths;
    }

    /** `user.refreshToken = t`. */
    method SetRefreshToken(t: Jwt.Token)
      requires Valid()
      modifies this
      ensures Valid()
      ensures data == old(data).(refreshToken := Some(t))
      ensures modified == old(modified) + {RefreshToken}
    {
      data := data.(refreshToken := Some(t));
      modified := modified + {RefreshToken};
    }

    /** The `pre("save")` hook, run on this document. */
    method RunPreSave(salt: Bcrypt.Salt)
      requires Valid()
      modifies this
      ensures data == PreSaveHook(old(data), old(modified), salt)
      ensures modified == old(modified)
    {
      if Password in modified {
        data := data.(password := Hashed(Bcrypt.Hash(data.password.text, salt)));
      }
    }

    /** After a successful write Mongoose forgets which paths were modified. */
    method MarkSaved()
      modifies this
      ensures Valid()
      ensures data == old(data) && modified == {}
    {
      modified := {};
    }
  }
}
