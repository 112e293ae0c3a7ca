/** The `User` collection: a table from id to account, the invariant the schema and the session logic keep on
    it, and the Mongoose model calls the controller makes (findById, findOne, create, save, findByIdAndUpdate). */
module UserStore {
  import opened Common
  import opened ApiErrors
  import opened UserModel
  import Text
  import Jwt
  import Bcrypt

  /** The collection's content, and the next `_id` to hand out. */
  datatype Db = Db(accounts: map<Id, Account>, nextId: Id)

  /** Every id in use was handed out already. */
  ghost predicate IdsBelow(db: Db)
  {
    forall id :: id in db.accounts ==> id < db.nextId
  }

  /** The session slot is empty or holds a refresh token issued to this very account under the refresh secret. */
  ghost predicate IssuedTo(slot: Option<Jwt.Token>, id: Id, cfg: TokenConfig)
  {
    slot.None? ||
    (&& slot.value.Signed? && slot.value.claims == Jwt.RefreshClaims(id)
     && slot.value.key == cfg.refreshSecret && slot.value.exp == slot.value.iat + cfg.refreshExpiry)
  }

  /** The unique indexes: no two accounts share a username or an email. */
  ghost predicate Unique(accounts: map<Id, Account>)
  {
    forall i, j :: i in accounts && j in accounts && i != j ==>
      accounts[i].username != accounts[j].username && accounts[i].email != accounts[j].email
  }

  /** The collection invariant. */
  ghost predicate Invariant(db: Db, cfg: TokenConfig)
  {
    && IdsBelow(db)
    && (forall id :: id in db.accounts ==> WellFormed(db.accounts[id]) && IssuedTo(db.accounts[id].refreshToken, id, cfg))
    && Unique(db.accounts)
  }

  /** The filter `{$or: [{username}, {email}]}`. Casting the filter runs the paths' setters on its values, as it
      does for documents, so the request's values are lower-cased and trimmed before they are compared. An absent
      value matches no stored account, since every stored account has both paths. */
  predicate MatchesQuery(a: Account, username: Option<string>, email: Option<string>)
  {
    (username.Some? && a.username == Text.Normalize(username.value))
    || (email.Some? && a.email == Text.Normalize(email.value))
  }

  /** The first account with id in `[i, n)` that matches the filter, scanning in id order. */
  function FirstMatchFrom(accounts: map<Id, Account>, username: Option<string>, email: Option<string>, i: nat, n: nat): (r: Option<Id>)
    ensures r.Some? ==> i <= r.value < n && r.value in accounts && MatchesQuery(accounts[r.value], username, email)
    ensures r.Some? ==> forall j :: i <= j < r.value && j in accounts ==> !MatchesQuery(accounts[j], username, email)
    ensures r.None? ==> forall j :: i <= j < n && j in accounts ==> !MatchesQuery(accounts[j], username, email)
    decreases n - i
  {
    if i >= n then None
    else if i in accounts && MatchesQuery(accounts[i], username, email) then Some(i)
    else FirstMatchFrom(accounts, username, email, i + 1, n)
  }

  /** `findOne` of that filter: the earliest inserted matching account. */
  function FindFirst(db: Db, username: Option<string>, email: Option<string>): Option<Id>
  {
    FirstMatchFrom(db.accounts, username, email, 0, db.nextId)
  }

  /** `findOne` finds nothing exactly when no account matches, and otherwise the matching account with the
      smallest id. */
  lemma FindFirstSpec(db: Db, username: Option<string>, email: Option<string>)
    requires IdsBelow(db)
    ensures FindFirst(db, username, email).None? <==>
      forall id :: id in db.accounts ==> !MatchesQuery(db.accounts[id], username, email)
    ensures FindFirst(db, username, email).Some? ==>
      var id := FindFirst(db, username, email).value;
      && id in db.accounts && MatchesQuery(db.accounts[id], username, email)
      && forall j :: j in db.accounts && j < id ==> !MatchesQuery(db.accounts[j], username, email)
  {
  }

  /** Because the filter's values go through the setters, a value and its lower-cased trimmed form find the same
      account: a login as `Alice ` finds the account stored as `alice`. */
  lemma {:induction false} FindFirstNormalizes(accounts: map<Id, Account>, username: string, email: Option<string>,
                                               i: nat, n: nat)
    ensures FirstMatchFrom(accounts, Some(username), email, i, n)
         == FirstMatchFrom(accounts, Some(Text.Normalize(username)), email, i, n)
    decreases n - i
  {
    Text.NormalizeShape(username);
    if i < n {
      FindFirstNormalizes(accounts, username, email, i + 1, n);
    }
  }

  /** Whether `a` shares a username or an email with a stored account. */
  predicate Clashes(stored: Account, a: Account)
  {
    stored.username == a.username || stored.email == a.email
  }

  /** Inserting `a` would violate a unique index. */
  predicate Collides(db: Db, a: Account)
  {
    exists id :: id in db.accounts && Clashes(db.accounts[id], a)
  }

  /** `User.create(d)`: build and validate the document, run the pre-save hook on it (its password is modified,
      so it is hashed), then insert it unless a unique index refuses it. */
  function CreateSpec(db: Db, d: NewUser, coverRequired: bool, salt: Bcrypt.Salt): (Result<Id, Failure>, Db)
  {
    match Validate(d, coverRequired)
    case Err(missing) => (Err(ValidationFailed(missing)), db)
    case Ok(a) =>
      var saved := PreSaveHook(a, CreatedPaths, salt);
      if Collides(db, saved) then (Err(DuplicateKey), db)
      else (Ok(db.nextId), Db(db.accounts[db.nextId := saved], db.nextId + 1))
  }

  /** A successful create adds exactly one account under a new id, normalized, hashed and without a session;
      a failed one changes nothing. */
  lemma CreateSpecEffect(db: Db, d: NewUser, coverRequired: bool, salt: Bcrypt.Salt)
    requires IdsBelow(db)
    ensures var (r, db') := CreateSpec(db, d, coverRequired, salt);
      && (r.Err? ==> db' == db)
      && (r.Ok? ==>
            && r.value == db.nextId && r.value !in db.accounts
            && db'.accounts.Keys == db.accounts.Keys + {r.value}
            && (forall id :: id in db.accounts ==> db'.accounts[id] == db.accounts[id])
            && db'.nextId == db.nextId + 1
            && Validate(d, coverRequired).Ok?
            && db'.accounts[r.value] == Validate(d, coverRequired).value.(password := Hashed(Bcrypt.Hash(d.password.value, salt))))
  {
  }

  /** Creating an account keeps the collection invariant: the stored values are normalized (the setters are
      idempotent), the unique indexes hold, and the new session slot is empty. */
  lemma CreatePreservesValid(db: Db, cfg: TokenConfig, d: NewUser, coverRequired: bool, salt: Bcrypt.Salt)
    requires Invariant(db, cfg)
    ensures Invariant(CreateSpec(db, d, coverRequired, salt).1, cfg)
  {
    var (r, db') := CreateSpec(db, d, coverRequired, salt);
    if r.Ok? {
      ValidateSpec(d, coverRequired);
      var a := db'.accounts[r.value];
      Text.NormalizeShape(d.username);
      Text.NormalizeShape(d.email.value);
      Text.TrimIdempotent(d.fullName.value);
      assert WellFormed(a);
      assert !Collides(db, a);
      forall i, j | i in db'.accounts && j in db'.accounts && i != j
        ensures db'.accounts[i].username != db'.accounts[j].username && db'.accounts[i].email != db'.accounts[j].email
      {
        if i == r.value {
          assert !Clashes(db.accounts[j], a);
        } else if j == r.value {
          assert !Clashes(db.accounts[i], a);
        }
      }
    }
  }

  /** The `User` model bound to its collection. */
  class Users {
    var accounts: map<Id, Account>
    var nextId: Id
    const config: TokenConfig

    function State(): Db
      reads this
    {
      Db(accounts, nextId)
    }

    ghost predicate Valid()
      reads this
    {
      Invariant(State(), config)
    }

    /** An empty collection, with the signing configuration loaded once at start-up. */
    constructor (config: TokenConfig)
      ensures Valid()
      ensures State() == Db(map[], 0) && this.config == config
    {
      accounts := map[];
      nextId := 0;
      this.config := config;
    }

    /** `User.findById(id)`: a fresh document holding the stored values, or null. */
    method FindById(id: Id) returns (doc: UserDocument?)
      ensures doc == null <==> id !in accounts
      ensures doc != null ==>
        fresh(doc) && doc.Valid() && doc.id == id && doc.data == accounts[id] && doc.modified == {}
    {
      if id in accounts {
        doc := new UserDocument.Hydrate(id, accounts[id]);
      } else {
        doc := null;
      }
    }

    /** The scan behind `User.findOne({$or: [{username}, {email}]})`, in id order. */
    method FirstMatch(username: Option<string>, email: Option<string>) returns (found: Option<Id>)
      ensures found == FindFirst(State(), username, email)
      ensures found.Some? ==> found.value in accounts && MatchesQuery(accounts[found.value], username, email)
    {
      var i := 0;
      while i < nextId
        invariant 0 <= i <= nextId
        invariant FirstMatchFrom(accounts, username, email, 0, nextId) == FirstMatchFrom(accounts, username, email, i, nextId)
      {
        if i in accounts && MatchesQuery(accounts[i], username, email) {
          return Some(i);
        }
        i := i + 1;
      }
      return None;
    }

    /** `User.findOne({$or: [{username}, {email}]})`: a fresh document for the first match, or null. */
    method FindOne(username: Option<string>, email: Option<string>) returns (doc: UserDocument?)
      ensures doc == null <==> FindFirst(State(), username, email).None?
      ensures doc != null ==>
        && fresh(doc) && doc.Valid() && Some(doc.id) == FindFirst(State(), username, email)
        && doc.id in accounts && doc.data == accounts[doc.id] && doc.modified == {}
    {
      var found := FirstMatch(username, email);
      if found.Some? {
        doc := new UserDocument.Hydrate(found.value, accounts[found.value]);
      } else {
        doc := null;
      }
    }

    /** The unique indexes on username and email, consulted by an insert. */
    method ViolatesUniqueIndex(a: Account) returns (b: bool)
      requires IdsBelow(State())
      ensures b == Collides(State(), a)
    {
      var i := 0;
      while i < nextId
        invariant 0 <= i <= nextId
        invariant forall j :: 0 <= j < i && j in accounts ==> !Clashes(accounts[j], a)
      {
        if i in accounts && Clashes(accounts[i], a) {
          return true;
        }
        i := i + 1;
      }
      return false;
    }

    /** `User.create(d)`. */
    method Create(d: NewUser, coverRequired: bool, salt: Bcrypt.Salt) returns (r: Result<Id, Failure>)
      requires Valid()
      modifies this
      ensures Valid()
      ensures (r, State()) == CreateSpec(old(State()), d, coverRequired, salt)
    {
      CreatePreservesValid(State(), config, d, coverRequired, salt);
      var v := Validate(d, coverRequired);
      if v.Err? {
        return Err(ValidationFailed(v.error));
      }
      var doc := new UserDocument.Build(nextId, v.value);
      doc.RunPreSave(salt);
      var clash := ViolatesUniqueIndex(doc.data);
      if clash {
        return Err(DuplicateKey);
      }
      accounts := accounts[doc.id := doc.data];
      nextId := nextId + 1;
      doc.MarkSaved();
      r := Ok(doc.id);
    }

    /** `doc.save({validateBeforeSave: false})` for a document read from the collection: the pre-save hook runs,
        then the document is written back; a document whose id is no longer stored is not written. In one atomic
        step the paths the document did not modify still hold the stored values, so writing the document back
        is writing its modified paths. The unwritten case keeps the modified marks, as Mongoose does after a
        failed save, so a document that had its password hashed no longer satisfies `Valid()`; no handler reaches
        that case, since every document it saves was loaded in the same step. */
    method Save(doc: UserDocument, salt: Bcrypt.Salt) returns (ok: bool)
      requires doc.Valid()
      modifies this, doc
      ensures ok == (doc.id in old(accounts))
      ensures doc.data == PreSaveHook(old(doc.data), old(doc.modified), salt)
      ensures ok ==> accounts == old(accounts)[doc.id := doc.data] && doc.modified == {}
      ensures !ok ==> accounts == old(accounts) && doc.modified == old(doc.modified)
      ensures nextId == old(nextId)
    {
      doc.RunPreSave(salt);
      ok := doc.id in accounts;
      if ok {
        accounts := accounts[doc.id := doc.data];
        doc.MarkSaved();
      }
    }

    /** `User.findByIdAndUpdate(id, {$set: {refreshToken: null}})`, the clearing update `Session.Logout` specifies:
        the slot is cleared if the id is stored. */
    method ClearRefreshToken(id: Id)
      modifies this
      ensures accounts == if id in old(accounts) then old(accounts)[id := old(accounts)[id].(refreshToken := None)]
                          else old(accounts)
      ensures nextId == old(nextId)
    {
      if id in accounts {
        accounts := accounts[id := accounts[id].(refreshToken := None)];
      }
    }
  }
}
