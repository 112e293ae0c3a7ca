/** Runs of the handlers, as the corrected system performs them (coverImage optional, logout clearing the slot,
    refresh rotating), and the session property they add up to: an account's refresh-token slot always holds the
    token of the last login or rotation for it, unless a later logout cleared it. */
module Trace {
  import opened Common
  import opened ApiErrors
  import opened UserModel
  import opened UserStore
  import opened Session
  import Jwt
  import Bcrypt

  /** One request, with what the environment contributes to it (upload answers, bcrypt salt, the clock). */
  datatype Call =
    | RegisterCall(register: RegisterRequest, avatarUpload: Option<string>, coverUpload: Option<string>, salt: Bcrypt.Salt)
    | LoginCall(login: LoginRequest, loginTime: int)
    | LogoutCall(userId: Id)
    | RefreshCall(refresh: RefreshRequest, refreshTime: int)

  datatype Outcome =
    | Registered(registered: Result<PublicView, Failure>)
    | LoggedIn(loggedIn: Result<LoginResult, Failure>)
    | LoggedOut
    | Refreshed(refreshed: Result<TokenPair, Failure>)

  /** What a call did to the session slots: nothing, a token issued to one account, or one account's slot cleared. */
  datatype SlotEvent = NoEvent | Issued(issuedTo: Id, token: Jwt.Token) | Cleared(clearedFor: Id)

  /** One call: its answer, its slot event and the new collection. */
  function Step(db: Db, cfg: TokenConfig, c: Call): (Outcome, SlotEvent, Db)
  {
    match c
    case RegisterCall(req, avatarUpload, coverUpload, salt) =>
      var (r, db') := Register(db, req, avatarUpload, coverUpload, salt, false);
      (Registered(r), NoEvent, db')
    case LoginCall(req, now) =>
      var (r, db') := Login(db, cfg, req, now);
      (LoggedIn(r), if r.Ok? then Issued(r.value.user.id, r.value.tokens.refreshToken) else NoEvent, db')
    case LogoutCall(id) =>
      (LoggedOut, Cleared(id), Logout(db, id))
    case RefreshCall(req, now) =>
      var (r, db') := RotateRefreshToken(db, cfg, req, now);
      (Refreshed(r), if r.Ok? then Issued(CheckRefresh(db, cfg, req, now).value, r.value.refreshToken) else NoEvent, db')
  }

  datatype Run = Run(outcomes: seq<Outcome>, events: seq<SlotEvent>, db: Db)

  /** The calls performed one after another from `db`. */
  function Perform(db: Db, cfg: TokenConfig, calls: seq<Call>): Run
  {
    if calls == [] then Run([], [], db)
    else
      var run := Perform(db, cfg, calls[..|calls| - 1]);
      var (o, e, db') := Step(run.db, cfg, calls[|calls| - 1]);
      Run(run.outcomes + [o], run.events + [e], db')
  }

  /** An account's slot; an id with no account has none. */
  function Slot(db: Db, id: Id): Option<Jwt.Token>
  {
    if id in db.accounts then db.accounts[id].refreshToken else None
  }

  /** The effect of one event on the slot of `id`. */
  function Apply(e: SlotEvent, id: Id, slot: Option<Jwt.Token>): Option<Jwt.Token>
  {
    match e
    case Issued(j, t) => if j == id then Some(t) else slot
    case Cleared(j) => if j == id then None else slot
    case NoEvent => slot
  }

  /** The slot of `id` that the event history prescribes, starting from `initial`: the last issue or clear for `id`. */
  function Latest(events: seq<SlotEvent>, id: Id, initial: Option<Jwt.Token>): Option<Jwt.Token>
  {
    if events == [] then initial else Apply(events[|events| - 1], id, Latest(events[..|events| - 1], id, initial))
  }

  /** One call moves every slot as its event says, and keeps ids below the next one. */
  lemma StepMovesSlot(db: Db, cfg: TokenConfig, c: Call, id: Id)
    requires IdsBelow(db)
    ensures IdsBelow(Step(db, cfg, c).2)
    ensures Slot(Step(db, cfg, c).2, id) == Apply(Step(db, cfg, c).1, id, Slot(db, id))
  {
    match c
    case RegisterCall(req, avatarUpload, coverUpload, salt) =>
      RegisterFailureChangesNothing(db, req, avatarUpload, coverUpload, salt, false);
      if Register(db, req, avatarUpload, coverUpload, salt, false).0.Ok? {
        RegisterSuccess(db, req, avatarUpload, coverUpload, salt, false);
      }
    case LoginCall(req, now) =>
      LoginRejections(db, cfg, req, now);
      if Login(db, cfg, req, now).0.Ok? {
        LoginStoresReturnedToken(db, cfg, req, now);
      }
    case LogoutCall(j) =>
      LogoutClearsSlot(db, j);
    case RefreshCall(req, now) =>
      RotateStoresReturnedToken(db, cfg, req, now);
      if CheckRefresh(db, cfg, req, now).Ok? {
        IssueStoresReturnedToken(db, cfg, CheckRefresh(db, cfg, req, now).value, now);
      }
  }

  /** Over any run, each account's slot is what its event history prescribes: the refresh token of its last
      login or rotation, or nothing after a later logout. One event and one answer are recorded per call. */
  lemma {:induction false} SlotIsLatestSession(db: Db, cfg: TokenConfig, calls: seq<Call>, id: Id)
    requires IdsBelow(db)
    ensures var run := Perform(db, cfg, calls);
      && IdsBelow(run.db)
      && |run.outcomes| == |calls| && |run.events| == |calls|
      && Slot(run.db, id) == Latest(run.events, id, Slot(db, id))
    decreases |calls|
  {
    if calls != [] {
      var prefix := calls[..|calls| - 1];
      SlotIsLatestSession(db, cfg, prefix, id);
      var run := Perform(db, cfg, prefix);
      StepMovesSlot(run.db, cfg, calls[|calls| - 1], id);
      var events := Perform(db, cfg, calls).events;
      assert events[..|events| - 1] == run.events;
    }
  }

  /** Consequently, at the end of any run the only refresh token that gets past the guards for an account is
      the one it was last issued, and none gets past once its last event is a logout. */
  lemma OnlyLatestTokenRefreshes(db: Db, cfg: TokenConfig, calls: seq<Call>, req: RefreshRequest, now: int, id: Id)
    requires IdsBelow(db)
    requires CheckRefresh(Perform(db, cfg, calls).db, cfg, req, now) == Ok(id)
    ensures Latest(Perform(db, cfg, calls).events, id, Slot(db, id)) == IncomingRefreshToken(req)
    ensures Latest(Perform(db, cfg, calls).events, id, Slot(db, id)).Some?
  {
    SlotIsLatestSession(db, cfg, calls, id);
    CheckRefreshSpec(Perform(db, cfg, calls).db, cfg, req, now, id);
  }
}
