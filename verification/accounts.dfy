/** The account handlers: `signUp`, `signIn`, `getUserProfile` and
    `updateUserProfile`. */
module Accounts {
  import opened Common
  import opened Text
  import opened DbSchema
  import opened ApiSchema
  import opened Ledger

  /** What sign-up and sign-in return: the stored user and a token. */
  datatype AuthResponse = AuthResponse(user: User, token: string)

  /** The sign-in token, `jwt_token_<id>_<time>`. */
  function SignInToken(id: int, now: Timestamp): string
  {
    Pair("jwt_token_", id, now)
  }

  /** For a serial id and a clock past the epoch the token has the shape
      `^jwt_token_\d+_\d+$`. */
  lemma SignInTokenFormat(id: int, now: Timestamp)
    requires id >= 0 && now >= 0
    ensures MatchesPrefixDigitsPair(SignInToken(id, now), "jwt_token_")
  {
    PairMatches("jwt_token_", id, now);
  }

  /** A token names exactly one user and one sign-in time. */
  lemma SignInTokenIdentifies(id: int, now: Timestamp, id': int, now': Timestamp)
    ensures SignInToken(id, now) == SignInToken(id', now') <==> id == id' && now == now'
  {
    if SignInToken(id, now) == SignInToken(id', now') {
      PairInjective("jwt_token_", id, now, id', now');
    }
  }

  /** `signIn`: an exact, case-sensitive lookup by email; a blank stored
      hash is refused; the password itself is never compared. */
  function SignIn(users: seq<User>, input: SignInInput, now: Timestamp): (r: Result<AuthResponse, Error>)
    ensures r.Err? ==> r.error == InvalidCredentials
    ensures FindUserByEmail(users, input.email).None? ==> r.Err?
    ensures r.Ok? <==>
              var i := FindUserByEmail(users, input.email);
              i.Some? && !AllWhitespace(users[i.value].passwordHash)
    ensures r.Ok? ==>
              var i := FindUserByEmail(users, input.email).value;
              r.value.user == users[i] && r.value.token == SignInToken(users[i].id, now)
  {
    match FindUserByEmail(users, input.email)
    case None => Err(InvalidCredentials)
    case Some(i) =>
      var user := users[i];
      TrimIsEmptyIff(user.passwordHash);
      if Trim(user.passwordHash) == "" then Err(InvalidCredentials)
      else Ok(AuthResponse(user, SignInToken(user.id, now)))
  }

  /** The outcome of signing in does not depend on the password given. */
  lemma SignInIgnoresPassword(users: seq<User>, email: string, password: string, other: string, now: Timestamp)
    ensures SignIn(users, SignInInput(email, password), now) == SignIn(users, SignInInput(email, other), now)
  {
  }

  /** Under unique emails, signing in as a stored user with a usable hash
      returns exactly that user. */
  lemma SignInFindsStoredUser(users: seq<User>, nextId: int, i: nat, password: string, now: Timestamp)
    requires UsersKeyed(users, nextId) && i < |users|
    requires !AllWhitespace(users[i].passwordHash)
    ensures SignIn(users, SignInInput(users[i].email, password), now)
         == Ok(AuthResponse(users[i], SignInToken(users[i].id, now)))
  {
    FindUserByEmailKeyed(users, nextId, i);
  }

  /** `getUserProfile`: the stored user with that id. */
  function UserProfile(users: seq<User>, userId: int): (r: Result<User, Error>)
    ensures r.Err? <==> forall j :: 0 <= j < |users| ==> users[j].id != userId
    ensures r.Err? ==> r.error == UnknownProfileId(userId)
    ensures r.Ok? ==> r.value in users && r.value.id == userId
  {
    match FindUser(users, userId)
    case None => Err(UnknownProfileId(userId))
    case Some(i) => Ok(users[i])
  }

  /** Ids are serial from 1, so a zero or negative id is never found. */
  lemma NoProfileBelowOne(users: seq<User>, nextId: int, userId: int)
    requires UsersKeyed(users, nextId) && userId < 1
    ensures UserProfile(users, userId) == Err(UnknownProfileId(userId))
  {
  }

  /** Under the primary key the profile is the one row with that id, as
      stored (its balance included). */
  lemma ProfileIsStoredRow(users: seq<User>, nextId: int, i: nat)
    requires UsersKeyed(users, nextId) && i < |users|
    ensures UserProfile(users, users[i].id) == Ok(users[i])
  {
    FindUserKeyed(users, nextId, i);
  }

  /** The row `updateUserProfile` writes: `updated_at` always, `full_name`
      when given, `phone_number` when given (possibly as null). */
  function ApplyProfileUpdate(u: User, input: UpdateProfileInput, now: Timestamp): (v: User)
    ensures v.updatedAt == now
    ensures v.fullName == if input.fullName.Some? then input.fullName.value else u.fullName
    ensures v.phoneNumber == if input.phoneNumber.Some? then input.phoneNumber.value else u.phoneNumber
    ensures v.(fullName := u.fullName, phoneNumber := u.phoneNumber, updatedAt := u.updatedAt) == u
  {
    var v := u.(updatedAt := now);
    var v := if input.fullName.Some? then v.(fullName := input.fullName.value) else v;
    if input.phoneNumber.Some? then v.(phoneNumber := input.phoneNumber.value) else v
  }

  /** `updateUserProfile`. */
  function UpdateProfile(db: Db, input: UpdateProfileInput, now: Timestamp): (s: Step<User>)
    ensures s.out.Err? <==> FindUser(db.users, input.userId).None?
    ensures s.out.Err? ==> s.out.error == UnknownUserId(input.userId) && s.db == db
    ensures s.out.Ok? ==>
              var u := FindUser(db.users, input.userId).value;
              && s.db == db.(users := db.users[u := s.out.value])
              && s.out.value == ApplyProfileUpdate(db.users[u], input, now)
    ensures Valid(db) ==> Valid(s.db)
  {
    match FindUser(db.users, input.userId)
    case None => Step(Err(UnknownUserId(input.userId)), db)
    case Some(u) =>
      var v := ApplyProfileUpdate(db.users[u], input, now);
      assert Valid(db) ==> Valid(db.(users := db.users[u := v])) by {
        if Valid(db) {
          UpdateUserKeyed(db.users, db.nextUserId, u, v);
        }
      }
      Step(Ok(v), db.(users := db.users[u := v]))
  }

  /** An update that names neither field only moves `updated_at`. */
  lemma EmptyUpdateTouchesOnlyTimestamp(db: Db, userId: int, now: Timestamp)
    requires FindUser(db.users, userId).Some?
    ensures var s := UpdateProfile(db, UpdateProfileInput(userId, None, None), now);
            var u := FindUser(db.users, userId).value;
            s.out == Ok(db.users[u].(updatedAt := now))
  {
  }

  /** The stored password hash: `<salt>:<digest of password + salt>`, with
      the digest an opaque function. */
  function PasswordHash(password: string, salt: string, digest: string -> string): (h: string)
    ensures |h| > |salt| && h[..|salt|] == salt && h[|salt|] == ':'
    ensures h[|salt| + 1..] == digest(password + salt)
  {
    salt + ":" + digest(password + salt)
  }

  /** A stored hash always holds the separator, so it is never blank. */
  lemma PasswordHashNotBlank(password: string, salt: string, digest: string -> string)
    ensures !AllWhitespace(PasswordHash(password, salt, digest))
  {
    var h := PasswordHash(password, salt, digest);
    assert h[|salt|] == ':';
  }

  /** `signUp`: the email is lowercased, an existing user with that email
      is refused, otherwise a user with balance 0 and not verified is
      inserted. `salt`, `digest` and `token` stand for the random salt, the
      hash and the signed token (which also depends on the clock). */
  function Register(db: Db, input: SignUpInput, salt: string, digest: string -> string,
                    token: (int, string, Timestamp) -> string, now: Timestamp): (s: Step<AuthResponse>)
    ensures s.out.Err? <==> exists j :: 0 <= j < |db.users| && db.users[j].email == ToLower(input.email)
    ensures s.out.Err? ==> s.out.error == EmailTaken && s.db == db
    ensures s.out.Ok? ==>
              var u := s.out.value.user;
              && s.db == db.(users := db.users + [u], nextUserId := db.nextUserId + 1)
              && u.id == db.nextUserId
              && u.email == ToLower(input.email)
              && u.passwordHash == PasswordHash(input.password, salt, digest)
              && u.fullName == input.fullName && u.phoneNumber == input.phoneNumber
              && u.balance == 0 && !u.isVerified
              && u.createdAt == now && u.updatedAt == now
              && s.out.value.token == token(u.id, u.email, now)
    ensures Valid(db) ==> Valid(s.db)
  {
    var email := ToLower(input.email);
    match FindUserByEmail(db.users, email)
    case Some(_) => Step(Err(EmailTaken), db)
    case None =>
      var u := InsertUser(
        NewUser(email, PasswordHash(input.password, salt, digest), input.fullName, input.phoneNumber,
                Some(0), Some(false)),
        db.nextUserId, now);
      Step(Ok(AuthResponse(u, token(u.id, u.email, now))),
           db.(users := db.users + [u], nextUserId := db.nextUserId + 1))
  }

  /** An account created from an input the sign-up schema accepts has a
      non-empty name and a lowercased email the schema's check accepted in
      its original case. */
  lemma ValidSignUpStoresNamedUser(
    db: Db, input: SignUpInput, isEmail: string -> bool, salt: string, digest: string -> string,
    token: (int, string, Timestamp) -> string, now: Timestamp)
    requires ValidSignUpInput(input, isEmail)
    requires Register(db, input, salt, digest, token, now).out.Ok?
    ensures var u := Register(db, input, salt, digest, token, now).out.value.user;
            |u.fullName| >= 1 && u.email == ToLower(input.email) && isEmail(input.email)
            && !AllWhitespace(u.passwordHash)
  {
    PasswordHashNotBlank(input.password, salt, digest);
  }

  /** Duplicates are caught whatever the case of the second address:
      once an email is registered, any address that lowercases to the same
      text is refused and nothing changes. */
  lemma DuplicateSignUpRefused(
    db: Db, first: SignUpInput, second: SignUpInput, salt: string, salt': string,
    digest: string -> string, token: (int, string, Timestamp) -> string, now: Timestamp, later: Timestamp)
    requires ToLower(second.email) == ToLower(first.email)
    requires Register(db, first, salt, digest, token, now).out.Ok?
    ensures var db' := Register(db, first, salt, digest, token, now).db;
            Register(db', second, salt', digest, token, later) == Step(Err(EmailTaken), db')
  {
    var s := Register(db, first, salt, digest, token, now);
    assert s.db.users[|db.users|] == s.out.value.user;
  }

  /** A new account can sign in at once with its lowercased email. */
  lemma SignInAfterSignUp(
    db: Db, input: SignUpInput, salt: string, digest: string -> string,
    token: (int, string, Timestamp) -> string, now: Timestamp, password: string, later: Timestamp)
    requires Valid(db)
    requires Register(db, input, salt, digest, token, now).out.Ok?
    ensures var s := Register(db, input, salt, digest, token, now);
            SignIn(s.db.users, SignInInput(ToLower(input.email), password), later)
              == Ok(AuthResponse(s.out.value.user, SignInToken(db.nextUserId, later)))
  {
    var s := Register(db, input, salt, digest, token, now);
    PasswordHashNotBlank(input.password, salt, digest);
    SignInFindsStoredUser(s.db.users, s.db.nextUserId, |db.users|, password, later);
  }

  /** Sign-up keeps the ledger reconciled: the new user has no rows and a
      zero balance. */
  lemma RegisterReconciled(
    db: Db, input: SignUpInput, salt: string, digest: string -> string,
    token: (int, string, Timestamp) -> string, now: Timestamp)
    requires Valid(db) && Reconciled(db)
    ensures Reconciled(Register(db, input, salt, digest, token, now).db)
  {
    var s := Register(db, input, salt, digest, token, now);
    if s.out.Ok? {
      NetOfStranger(db.transactions, db.nextUserId);
    }
  }

  /** Profile updates never touch a balance, so they keep the ledger
      reconciled and every balance as it was. */
  lemma UpdateProfileReconciled(db: Db, input: UpdateProfileInput, now: Timestamp)
    requires Reconciled(db)
    ensures var s := UpdateProfile(db, input, now);
            && Reconciled(s.db)
            && |s.db.users| == |db.users|
            && forall i :: 0 <= i < |db.users| ==> s.db.users[i].balance == db.users[i].balance
  {
  }
}
