# User accounts and sessions of chai-aur-backend, in Dafny

This project models the account and session core of an Express/Mongoose video-platform backend:

- the `User` schema: required, unique, lower-casing and trimming paths; the password-hashing pre-save hook;
  the password check; the access- and refresh-token builders;
- the four handlers of the user controller: `registerUser`, `loginUser`, `logoutUser` and
  `refreshAccessToken`;
- the helper `generateAccessAndRefreshToken`, which signs a token pair and stores the refresh token in the
  account's single session slot.

Each handler is written twice.

- A value-level function in `Session`. It maps the collection and the request to the response and the new
  collection.
- A method in `UserController`. It works on the `Users` class, the model bound to its collection, which hands
  out `UserDocument` objects. These objects carry their own set of modified paths, as Mongoose documents do.
  Every method is proved to answer, and to leave the collection, exactly as its function says. Every method
  also keeps the collection invariant `UserStore.Invariant`:
  - ids below the counter;
  - stored accounts normalized, with a hashed password;
  - username and email unique;
  - every slot either empty or holding a refresh token signed for that very account.

The lemmas state what the handlers promise:

- which request is rejected and with which status;
- that a rejected request changes nothing;
- what a successful registration stores;
- that login stores exactly the refresh token it returns;
- that the intended logout clears the slot, while logout as written leaves it under Mongoose 6 and later;
- which refresh requests pass the guards.

`Trace` adds the overall session property. Over any run of the corrected handlers (coverImage optional, logout
setting `null`, refresh rotating), an account's slot holds the token of its last login or rotation, or nothing
after a later logout. So that token is the only one that can be refreshed.

Modules, one per file:

- `Common`: ids, `Option`, `Result` and the schema's path names.
- `Text`: ECMAScript `trim` and `toLowerCase`.
- `Bcrypt`: `bcrypt.hash` and `bcrypt.compare`, which read only the first 72 bytes of a password.
- `Jwt`: `jwt.sign` and `jwt.verify`.
- `ApiErrors`: failures and their status codes.
- `UserModel`: the schema and the document.
- `UserStore`: the collection.
- `Session`, `UserController` and `Trace`, as described above.

The environment comes in as parameters:

- the clock, as `now`, in whole seconds;
- bcrypt's random salt;
- the upload service's answer for each file;
- the secrets and lifetimes read from the process environment, in `TokenConfig`.

A failure's status is what the client sees:

- a thrown `ApiError` gives its own status;
- any other exception reaches `asyncHandler` and then Express's default handler, which answers 500.

Behaviour of the code worth knowing:

- A refresh token that fails verification gets a 500, not a 401. The first verification sits outside the `try`.
- A failed avatar upload gets a 400 "Avatar file is required".
- The lookups by username or email run the schema's setters on the request's values, so `Alice ` finds the
  account stored as `alice`, and the duplicate check of registration catches every clash the unique indexes
  would refuse.
- The refresh handler never succeeds; see the second finding below.
- As written, logout leaves the refresh token in its slot; see the third finding below.

## Model

| member | source | states |
|---|---|---|
| Text.Trim | src/models/user.model.js:11 | `String.prototype.trim` over the ECMAScript white space and line terminators; its properties are `TrimShape`, `TrimBlank` and `TrimIdempotent` |
| Text.ToLower | src/controllers/user.controller.js:110 | `toLowerCase` on ASCII letters; its properties are `ToLowerIsLower`, `ToLowerOfLower` and `LowerKeepsSpace` |
| Text.Normalize | src/models/user.model.js:10-11 | the lowercase and trim setters; its properties are `SettersCommute`, `NormalizeShape` and `NormalizeBlank` |
| ApiErrors.Status | src/controllers/user.controller.js:23-273 | the status each `ApiError` is thrown with, 401 for the caught refresh failure, and 500 for the errors that reach the default handler; stated with each failure by the lemmas of `Session` |
| Bcrypt.Key | src/models/user.model.js:58-64 | the part of a password bcrypt reads: no more than 72 characters, a prefix of the password, all of a short one |
| Bcrypt.Hash | src/models/user.model.js:58 | `bcrypt.hash(plain, 10)` with the drawn salt, over the first 72 bytes; its properties are `CompareOwnHash` and `HashIsSalted` |
| Bcrypt.Compare | src/models/user.model.js:64 | `bcrypt.compare`, recomputing with the embedded cost and salt; its properties are `CompareOwnHash`, `CompareHash`, `CompareOtherPassword` and `CompareIgnoresTail` |
| Jwt.Sign | src/models/user.model.js:73-84 | `jwt.sign` with an `expiresIn` lifetime; its properties are `SignThenVerify` and `SignedAtDifferentTimes` |
| Jwt.Verify | src/controllers/user.controller.js:225-228 | `jwt.verify`: malformed, wrong secret and expired tokens are refused; its properties are `VerifyAccepts` and `SignThenVerify` |
| UserModel.View | src/controllers/user.controller.js:113-115 | the account as `select("-password -refreshToken")` returns it; its use is stated by `RegisterSuccess` |
| UserModel.Validate | src/models/user.model.js:5-51 | document construction and the `required` validators after the setters; its properties are `ValidateSpec` and `MissingPathsExact` |
| UserModel.PreSaveHook | src/models/user.model.js:53-61 | the pre-save hook; its properties are `PreSaveHookEffect` and `SavedPasswordCheck` |
| UserModel.IsPasswordCorrect | src/models/user.model.js:63-65 | `isPasswordCorrect`; its properties are `PasswordCheckIsCompare` and `SavedPasswordCheck` |
| UserModel.GenerateAccessToken | src/models/user.model.js:71-86 | `generateAccessToken`; its properties are `AccessTokenClaims` |
| UserModel.GenerateRefreshToken | src/models/user.model.js:88-98 | `generateRefreshToken`; its properties are `RefreshTokenClaims` |
| UserStore.MatchesQuery | src/controllers/user.controller.js:69-71 | the `$or` filter on username and email, with the setters run on its values; used by `FindFirstSpec` and `FindFirstNormalizes` |
| UserStore.FindFirst | src/controllers/user.controller.js:147-149 | `findOne` of that filter in insertion order; its properties are `FindFirstSpec` and `FindFirstNormalizes` |
| UserStore.Collides | src/models/user.model.js:9-17 | an insert that the unique indexes on username and email refuse; its properties are `CreateSpecEffect` and `RegisterNeverHitsUniqueIndex` |
| UserStore.CreateSpec | src/controllers/user.controller.js:104-111 | `User.create`: validation, the pre-save hook, the unique indexes and the insert; its properties are `CreateSpecEffect` and `CreatePreservesValid` |
| Session.Issue | src/controllers/user.controller.js:8-25 | `generateAccessAndRefreshToken`; its properties are `IssueStoresReturnedToken` and `IssuePreservesInvariant` |
| Session.Blank | src/controllers/user.controller.js:53 | `field?.trim() === ""`; used by `RegisterRejectsBlankFields` |
| Session.AnyBlank | src/controllers/user.controller.js:52-56 | the blank test over fullName, email, username and password; its property is `RegisterRejectsBlankFields` |
| Session.AvatarLocalPath | src/controllers/user.controller.js:81 | `req.files?.avatar[0]?.path`, with the TypeError when `req.files` has no avatar list; used by `RegisterRequiresAvatar` |
| Session.CoverImageLocalPath | src/controllers/user.controller.js:84-88 | the guarded read of the first cover image's path; used by `RegisterSuccess` and `RegisterAsWrittenNeedsCoverImage` |
| Session.UploadOnCloudinary | src/utils/cloudinary.js:11-29 | null without a path, otherwise the upload service's answer; used by `RegisterRequiresAvatar` and `RegisterSuccess` |
| Session.Register | src/controllers/user.controller.js:27-124 | `registerUser`, with the schema's coverImage rule as a parameter; its properties are the `Register…` lemmas and `CoverlessRegistrationExample` |
| Session.Truthy | src/controllers/user.controller.js:143 | JavaScript truthiness of a string field; used by `LoginRejections` |
| Session.Login | src/controllers/user.controller.js:126-187 | `loginUser`; its properties are `LoginRejections`, `LoginStoresReturnedToken` and `LoginPreservesInvariant` |
| Session.FindByIdAndUpdate | src/controllers/user.controller.js:190-198 | `findByIdAndUpdate` with `$set` of `refreshToken`, where an `undefined` value is dropped and `null` clears; its properties are `LogoutClearsSlot` and `LogoutAsWrittenKeepsSession` |
| Session.LogoutAsWritten | src/controllers/user.controller.js:189-212 | `logoutUser` as written, setting `undefined`; its property is `LogoutAsWrittenKeepsSession` |
| Session.Logout | src/controllers/user.controller.js:189-212 | `logoutUser` as intended, setting `null`; its properties are `LogoutClearsSlot`, `LogoutPreservesInvariant` and `RefreshRefusedAfterLogout` |
| Session.Presented | src/controllers/user.controller.js:221 | JavaScript truthiness of a token string; used by `CheckRefreshSpec` |
| Session.IncomingRefreshToken | src/controllers/user.controller.js:219 | the cookie's token, else the body's; used by `CheckRefreshSpec` |
| Session.CheckRefresh | src/controllers/user.controller.js:219-252 | the guards of `refreshAccessToken`; its property is `CheckRefreshSpec` |
| Session.RefreshAccessToken | src/controllers/user.controller.js:217-276 | `refreshAccessToken` as written; its properties are `RefreshAsWrittenNeverSucceeds` and `RefreshAfterLoginExample` |
| Session.RotateRefreshToken | src/controllers/user.controller.js:217-270 | the intended rotation, the guards then the helper of lines 8-25; its properties are `RotateStoresReturnedToken`, `RotatePreservesInvariant` and `RotationIsSingleUse` |
| Trace.Step | src/controllers/user.controller.js:8-276 | one request to one of the corrected handlers, with the slot event it causes; its property is `StepMovesSlot` |
| Trace.Perform | src/controllers/user.controller.js:8-276 | a run of requests to the corrected handlers, one after another; its properties are `SlotIsLatestSession` and `OnlyLatestTokenRefreshes` |
| Text.TrimStartSpec | src/models/user.model.js:11 | trimming the front removes a prefix made only of whitespace and leaves no leading whitespace |
| Text.TrimEndSpec | src/models/user.model.js:11 | trimming the back removes a suffix made only of whitespace and leaves no trailing whitespace |
| Text.TrimShape | src/models/user.model.js:11 | `trim` yields a slice of the input, with only whitespace cut at either end and no whitespace left at its ends |
| Text.TrimBlank | src/controllers/user.controller.js:52-56 | a string trims to "" exactly when every character is whitespace |
| Text.TrimIdempotent | src/models/user.model.js:24 | the trim setter is idempotent, so a stored full name is already trimmed |
| Text.LowerKeepsSpace | src/models/user.model.js:10 | lower-casing keeps the length and maps whitespace to whitespace and nothing else to it |
| Text.LowerSlice | src/models/user.model.js:10 | every slice of a lower-case string is lower-case |
| Text.ToLowerIsLower | src/models/user.model.js:10 | `toLowerCase` produces a lower-case string |
| Text.ToLowerOfLower | src/controllers/user.controller.js:110 | lower-casing a lower-case string changes nothing, so the handler's `toLowerCase` and the schema's lowercase setter agree |
| Text.NormalizeShape | src/models/user.model.js:6-20 | the lowercase-then-trim setters give a lower-case, trimmed value and are idempotent |
| Text.NormalizeBlank | src/models/user.model.js:8-11 | a value normalizes to "" exactly when it trims to "" |
| Text.LowerTrimStart | src/models/user.model.js:10-11 | lower-casing commutes with dropping leading whitespace |
| Text.LowerTrimEnd | src/models/user.model.js:10-11 | lower-casing commutes with dropping trailing whitespace |
| Text.SettersCommute | src/models/user.model.js:10-11 | lower-casing then trimming gives the same string as trimming then lower-casing, so the order of the two setters does not matter |
| Text.NotBlank | src/controllers/user.controller.js:52-56 | a string that starts with a non-space character is not blank under trimming or normalizing |
| Bcrypt.CompareOwnHash | src/models/user.model.js:58-64 | a password matches its own hash whatever salt was drawn |
| Bcrypt.CompareHash | src/models/user.model.js:58-64 | a password matches a hash exactly when its first 72 bytes equal those of the hashed password |
| Bcrypt.CompareOtherPassword | src/models/user.model.js:63-65 | a password that differs from the hashed one within the first 72 bytes never matches |
| Bcrypt.CompareIgnoresTail | src/models/user.model.js:58-64 | two passwords of 72 bytes or more that share their first 72 bytes both match the hash of either |
| Bcrypt.HashIsSalted | src/models/user.model.js:58 | two hashes of one password with different salts differ, yet both match it |
| Jwt.VerifyAccepts | src/controllers/user.controller.js:225-228 | verification succeeds exactly for a token signed with that secret whose expiry is still ahead, and returns its claims |
| Jwt.SignThenVerify | src/models/user.model.js:71-98 | a signed token verifies for its lifetime, is expired afterwards and fails under any other secret |
| Jwt.SignedAtDifferentTimes | src/models/user.model.js:88-98 | tokens for one payload signed in different seconds differ |
| UserModel.MissingPathsExact | src/models/user.model.js:5-51 | the reported validation errors are exactly the required paths whose cast value is absent or "" |
| UserModel.ValidateSpec | src/models/user.model.js:5-51 | validation passes exactly when every required path is filled after the setters; the document then holds the lower-cased trimmed username and email, the trimmed full name and no refresh token; otherwise the error names the missing paths |
| UserModel.PreSaveHookEffect | src/models/user.model.js:53-61 | the hook re-hashes only when the password path was modified, the new hash matches the old plaintext, and nothing else changes |
| UserModel.PasswordCheckIsCompare | src/models/user.model.js:63-65 | on a hashed password the check is bcrypt's compare; a missing candidate throws |
| UserModel.SavedPasswordCheck | src/models/user.model.js:53-65 | after the first save, the check accepts exactly the candidates whose first 72 bytes equal the original plaintext's; for passwords of at most 72 bytes, the original plaintext and nothing else |
| UserModel.AccessTokenClaims | src/models/user.model.js:71-86 | an access token verifies under the access secret to its four claims during its lifetime and is expired afterwards |
| UserModel.RefreshTokenClaims | src/models/user.model.js:88-98 | a refresh token verifies under the refresh secret to the `_id` claim during its lifetime, is expired afterwards and names its account |
| UserModel.UserDocument.Hydrate | src/controllers/user.controller.js:11 | a loaded document holds the stored values and no modified paths |
| UserModel.UserDocument.Build | src/models/user.model.js:5-51 | a new document marks every path it sets as modified |
| UserModel.UserDocument.SetRefreshToken | src/controllers/user.controller.js:16 | assigning the token sets the slot and marks the `refreshToken` path modified, and nothing else |
| UserModel.UserDocument.RunPreSave | src/models/user.model.js:53-61 | the document becomes what the pre-save hook makes of it |
| UserModel.UserDocument.MarkSaved | src/controllers/user.controller.js:18 | after saving, no path is modified and the values stay |
| UserStore.FirstMatchFrom | src/controllers/user.controller.js:69-71 | the first id in a range whose account has the queried username or email, or none when no account in that range matches |
| UserStore.FindFirstSpec | src/controllers/user.controller.js:69-71 | `findOne` with `$or` finds some account exactly when one has the lower-cased trimmed username or email of the request, and then the least such id |
| UserStore.FindFirstNormalizes | src/controllers/user.controller.js:147-149 | a query value and its lower-cased trimmed form find the same account, since the filter's values go through the setters |
| UserStore.CreateSpecEffect | src/controllers/user.controller.js:104-111 | a successful create adds one validated, hashed account under a new id and leaves the others; a failed one changes nothing |
| UserStore.CreatePreservesValid | src/models/user.model.js:5-61 | creating an account keeps the collection invariant, including the unique indexes |
| UserStore.Users.constructor | src/models/user.model.js:100 | the model starts with an empty collection satisfying the invariant |
| UserStore.Users.FindById | src/controllers/user.controller.js:11 | `findById` gives a fresh document with the stored values, or null exactly when the id is not stored |
| UserStore.Users.FirstMatch | src/controllers/user.controller.js:147-149 | the scan returns the id `FindFirst` specifies, which matches the query |
| UserStore.Users.FindOne | src/controllers/user.controller.js:69-71 | `findOne` gives a fresh document for the first match, or null exactly when nothing matches |
| UserStore.Users.ViolatesUniqueIndex | src/models/user.model.js:9-17 | the unique indexes reject a document exactly when a stored account has its username or its email |
| UserStore.Users.Create | src/controllers/user.controller.js:104-111 | `User.create` answers and changes the collection as `CreateSpec` says, and keeps the invariant |
| UserStore.Users.Save | src/controllers/user.controller.js:18 | save runs the hook and writes the document back exactly when its id is still stored |
| UserStore.Users.ClearRefreshToken | src/controllers/user.controller.js:190-198 | the clearing update empties the slot of the given id, if stored, and changes nothing else |
| Session.IssueStoresReturnedToken | src/controllers/user.controller.js:8-25 | the helper fails (500) exactly when the id is not stored; otherwise it returns the access token and the refresh token built from the account, stores that refresh token and changes nothing else |
| Session.IssuePreservesInvariant | src/controllers/user.controller.js:8-25 | issuing tokens keeps the collection invariant |
| Session.RegisterFailureChangesNothing | src/controllers/user.controller.js:27-124 | a rejected registration leaves the collection as it was |
| Session.RegisterRejectsBlankFields | src/controllers/user.controller.js:52-56 | 400 exactly when a present field is blank after trimming |
| Session.RegisterRejectsExistingUser | src/controllers/user.controller.js:69-75 | past the blank check, 409 exactly when some account has the request's username or email once lower-cased and trimmed, with no change |
| Session.RegisterNeverHitsUniqueIndex | src/controllers/user.controller.js:69-111 | a registration never ends in the unique indexes' 500: the duplicate check already compares the values the insert would store |
| Session.RegisterRequiresAvatar | src/controllers/user.controller.js:81-102 | past the first checks, 400 "Avatar file is required" exactly when there is no avatar path or its upload failed |
| Session.RegisterSuccess | src/controllers/user.controller.js:27-124 | a successful registration had every field, no existing match and an uploaded avatar; it adds exactly one account with the normalized values, the avatar URL, the cover URL or "", the hashed password and no session, and returns its public view |
| Session.RegisterPreservesInvariant | src/controllers/user.controller.js:27-124 | registration keeps the collection invariant |
| Session.RegisterAsWrittenNeedsCoverImage | src/models/user.model.js:31-34 | with coverImage required, a registration succeeds only if a cover image was uploaded with a non-empty URL |
| Session.CoverlessRequestReachesCreate | src/controllers/user.controller.js:104-111 | a complete request without a cover image passes the handler's checks and builds a document missing only coverImage |
| Session.CoverlessRegistrationExample | src/controllers/user.controller.js:107 | that request fails with a validation error naming coverImage (500) as written, and succeeds with coverImage optional |
| Session.LoginRejections | src/controllers/user.controller.js:143-163 | 400 exactly without username and email; 404 exactly when no account matches; 401 exactly when the password does not match; 500 exactly when it is missing; no rejection changes anything |
| Session.LoginStoresReturnedToken | src/controllers/user.controller.js:139-186 | after a successful login the account matched and its password was right, its slot holds the returned refresh token, the pair is built from the account, and no other account or path changed |
| Session.LoginPreservesInvariant | src/controllers/user.controller.js:139-186 | login keeps the collection invariant |
| Session.LogoutClearsSlot | src/controllers/user.controller.js:189-212 | the intended logout empties the account's slot, changes nothing else, and is idempotent |
| Session.LogoutAsWrittenKeepsSession | src/controllers/user.controller.js:190-198 | as written, logout changes nothing, so the refresh token of the preceding login still passes every guard until it expires, while after the intended logout it is refused |
| Session.LogoutPreservesInvariant | src/controllers/user.controller.js:189-212 | logout keeps the collection invariant |
| Session.CheckRefreshSpec | src/controllers/user.controller.js:217-251 | the guards pass exactly for a presented, unexpired token signed with the refresh secret that equals the named account's stored slot; each failing guard gets its own answer |
| Session.RefreshAsWrittenNeverSucceeds | src/controllers/user.controller.js:259 | as written, refresh never succeeds: a request that passes every guard gets 401 |
| Session.RefreshAfterLoginExample | src/controllers/user.controller.js:217-276 | right after a login, its refresh token passes the guards, yet as written it gets 401; the intended rotation succeeds |
| Session.RotateStoresReturnedToken | src/controllers/user.controller.js:259-270 | the intended rotation succeeds exactly when the guards pass; it stores the refresh token it returns and changes no other account |
| Session.RotatePreservesInvariant | src/controllers/user.controller.js:259-270 | rotation keeps the collection invariant |
| Session.RefreshRefusedAfterLogout | src/controllers/user.controller.js:189-251 | after the intended logout, no token naming the account passes the guards, and neither refresh variant changes anything |
| Session.RefreshRefusedAfterNewerLogin | src/controllers/user.controller.js:166-251 | after a login, an older token of that account is refused, and the new one passes while unexpired |
| Session.RotationIsSingleUse | src/controllers/user.controller.js:245-247 | when the presented token was issued in an earlier second than the rotation (`iat < now`), presenting it again at any later time is refused, as used while unexpired and as expired afterwards |
| Session.SameSecondRotationReplays | src/controllers/user.controller.js:245-259 | when the presented token was issued in the second of the rotation (`iat == now`), the rotation stores the same token again, and presenting it once more in that second passes every guard and yields the same pair |
| UserController.GenerateAccessAndRefreshToken | src/controllers/user.controller.js:8-25 | the helper's loads, saves and answers are those of `Session.Issue`, and it keeps the invariant |
| UserController.RegisterUser | src/controllers/user.controller.js:27-124 | the handler answers and changes the collection as `Session.Register` with coverImage optional, and keeps the invariant |
| UserController.LoginUser | src/controllers/user.controller.js:126-187 | the handler answers and changes the collection as `Session.Login`, and keeps the invariant |
| UserController.LogoutUser | src/controllers/user.controller.js:189-212 | the handler leaves the collection as the intended `Session.Logout`, and keeps the invariant |
| UserController.RefreshAccessToken | src/controllers/user.controller.js:217-276 | the handler as written answers as `Session.RefreshAccessToken`, including the repeated verification and lookup, and writes nothing |
| UserController.RotateRefreshToken | src/controllers/user.controller.js:217-270 | the intended handler answers and changes the collection as `Session.RotateRefreshToken`, and keeps the invariant |
| Trace.StepMovesSlot | src/controllers/user.controller.js:8-276 | one call moves each slot as its event says: set by a login or rotation for that account, cleared by its logout, untouched otherwise |
| Trace.SlotIsLatestSession | src/controllers/user.controller.js:8-276 | over any run of calls to the corrected handlers, each slot holds the token of the last login or rotation for that account, or nothing after a later logout |
| Trace.OnlyLatestTokenRefreshes | src/controllers/user.controller.js:217-251 | at the end of any run of the corrected handlers, only the last token issued to an account can pass the guards, and none after a later logout |

## Left out

- Text.ToLower: lower-cases ASCII letters only. `String.prototype.toLowerCase` also maps non-ASCII letters by
  Unicode case rules, and no Unicode tables are modelled.
- UserStore.MatchesQuery: the filter's values go through the lowercase and trim setters, as Mongoose 5 and later
  do by default. Under Mongoose 4, which compared them raw, `Alice` would find nothing when `alice` is stored;
  that behaviour is not modelled.
- Field values are strings or absent. JSON numbers, arrays or objects in the body are not modelled.
- The `timestamps` option and the `watchHistory` path are not modelled. Nothing in the core reads them.
- Upload-service internals and the deletion of temporary files are left out; each upload is an answer passed in
  as a parameter. `src/utils/cloudinary.js` is context only: its `null` for a missing path is modelled, its I/O is not.
- Multer is not modelled. `req.files` is an absent value or one optional path list per field.
- HTTP is left out: response envelopes, the cookie settings, and the cookies that logout clears. Responses are
  `Result` values; their status comes from `ApiErrors.Status`.
- Requests run one at a time, with one clock reading per request. Concurrency between requests, and time passing
  inside one request, are left out. For the same reason the repeated verification and lookup inside
  `refreshAccessToken` are modelled as returning the first answers.
- `ACCESS_TOKEN_EXPIRY` and `REFRESH_TOKEN_EXPIRY` reach `jwt.sign` as strings, which jsonwebtoken parses with
  `ms`: `"1d"` is a day, while a bare `"3600"` counts milliseconds and gives 3 seconds. Each lifetime in
  `TokenConfig` is the whole number of seconds jsonwebtoken derives from its string; the parsing is not modelled.
- JWT signing and bcrypt are not modelled cryptographically. A signed token is an injective value of its claims,
  key and times; a bcrypt digest is an injective value of its cost, salt and first 72 password bytes. Each secret
  is the same string everywhere it is used.
- Bcrypt.Compare: reads the first 72 characters of a password, each standing for one byte, as bcrypt reads the first
  72 bytes of its UTF-8 encoding. For ASCII passwords the two agree; for others the UTF-8 encoding is not
  modelled, so the cut falls at a different place.
- Bcrypt.Key: keeps the first 72 characters, not the first 72 UTF-8 bytes. Forty `é` keep 40 characters,
  where bcrypt reads 36 of them (72 bytes).
- Bcrypt.CompareHash: its "only if" half holds for ASCII passwords only. Forty `é`, and thirty-six `é` followed by
  `x`, share their first 72 UTF-8 bytes, so bcrypt matches them, while their `Key`s differ.
- Bcrypt.CompareIgnoresTail: its 72-character prefix is 72 bytes only for ASCII passwords; for others it is longer,
  so the lemma still holds of bcrypt but covers fewer pairs than bcrypt matches.
- Bcrypt.CompareOtherPassword: counts the 72-byte limit in characters, as `Bcrypt.Compare` does, and holds only of
  an ideal, collision-free hash; real bcrypt makes a false match improbable, not impossible.
- UserModel.SavedPasswordCheck: counts the 72-byte limit in characters, as `Bcrypt.Compare` does, and its "nothing
  else" holds only of an ideal, collision-free hash.
- Session.RotationIsSingleUse: single use holds only when the presented token was issued in an earlier second than
  the rotation. Tokens carry their issue time in whole seconds, so a rotation in the same second issues the very
  token presented, which then passes again within that second; `Session.SameSecondRotationReplays` states that case.
- Session.FindByIdAndUpdate: drops a key set to `undefined`, as Mongoose 6 and later always do. Under Mongoose 5,
  which turned it into `null`, the logout as written would clear the slot like the intended one. The Mongoose
  version is not part of this model.
- UserController.LogoutUser: proved against the clearing update, the corrected half of the third finding. The code
  as written is `Session.LogoutAsWritten`.
- The authentication middleware behind logout (`req.user`) is not part of this model. Logout receives the account id.
- `findOne` returns the account with the least id among the matches; the collection's natural order is taken to be
  insertion order.
- A `findById` of an id that was just inserted, or just updated, always finds it. So the `!createdUser` branch of
  `registerUser` cannot be taken, and `RegisterUser` asserts that instead of branching.
- `findOne(user._id)` in `loginUser` is read as a lookup by id.
- UserController.RegisterUser: proved against the schema with coverImage optional, the corrected half of the first
  finding. The code as written is `Session.Register` with `coverRequired` true.
- UserController.RefreshAccessToken: as written it never issues tokens. The rotation the handler evidently intends
  is `UserController.RotateRefreshToken`.

## Findings

| source | as written | input that shows it | evidently intended | confidence | as-written member | corrected member |
|---|---|---|---|---|---|---|
| src/models/user.model.js:31-34 with src/controllers/user.controller.js:107 | the schema makes `coverImage` required; the handler stores `""` when there is no cover image, and Mongoose's `required` rejects `""`, so every registration without a cover image ends in a ValidationError (500) | a complete registration of `alice` with an avatar and no cover image, into an empty collection | the cover image is optional: the handler's `(coverImage)?coverImage.url:""` and its comment at lines 97-98 say so | high (not executed) | Session.RegisterAsWrittenNeedsCoverImage, Session.CoverlessRegistrationExample | UserController.RegisterUser (Session.Register with coverImage optional), Session.RegisterSuccess |
| src/controllers/user.controller.js:259 | a request that passes every refresh guard calls `generateAccessAndRefereshTokens`, which is not defined; the ReferenceError is caught and answered 401, so no refresh ever succeeds; the destructured `newRefreshToken` would also be undefined, since the helper returns `refreshToken` | right after a login, presenting the refresh token that login returned | call `generateAccessAndRefreshToken` and answer with its pair, rotating the stored refresh token | high (not executed) | Session.RefreshAsWrittenNeverSucceeds, Session.RefreshAfterLoginExample | UserController.RotateRefreshToken, Session.RotateStoresReturnedToken, Session.RotationIsSingleUse |
| src/controllers/user.controller.js:190-198 | logout sends `$set: {refreshToken: undefined}`; Mongoose 6 and later drop keys set to `undefined` from updates, so the update is empty and the refresh token stays in its slot: logout does not end the session | log in, log out, then refresh with the refresh token the login returned, before it expires | clear the slot, with `$set: {refreshToken: null}` or `$unset: {refreshToken: 1}` | medium (not executed): depends on the Mongoose version | Session.LogoutAsWritten, Session.LogoutAsWrittenKeepsSession | UserController.LogoutUser (Session.Logout), Session.LogoutClearsSlot, Session.RefreshRefusedAfterLogout |
