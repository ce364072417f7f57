/** The four handlers that write: each works on the tables in place and
    is proved to leave the state, and return the result, that its
    specification function describes. */
module Handlers {
  import opened Common
  import opened DbSchema
  import opened ApiSchema
  import opened Ledger
  import opened Accounts

  class Database {
    var users: seq<User>
    var providers: seq<Provider>
    var products: seq<Product>
    var transactions: seq<Transaction>
    var nextUserId: int
    var nextTransactionId: int

    ghost function State(): Db
      reads this
    {
      Db(users, providers, products, transactions, nextUserId, nextTransactionId)
    }

    /** A freshly migrated database. */
    constructor ()
      ensures State() == EmptyDb
      ensures Valid(State()) && Reconciled(State()) && Solvent(State())
    {
      users, providers, products, transactions := [], [], [], [];
      nextUserId, nextTransactionId := 1, 1;
    }

    /** `createTransaction`. */
    method CreateTransaction(input: CreateTransactionInput, now: Timestamp) returns (r: Result<Transaction, Error>)
      requires Valid(State())
      modifies this
      ensures var s := Purchase(old(State()), input, now);
              r == s.out && State() == s.db
      ensures Valid(State())
      ensures old(Reconciled(State())) ==> Reconciled(State())
      ensures old(Solvent(State())) ==> Solvent(State())
    {
      ghost var before := State();
      var p := FindProduct(products, input.productId);
      if p.None? {
        return Err(ProductNotFound);
      }
      var product := products[p.value];
      if !product.isActive {
        return Err(ProductInactive);
      }
      var u := FindUser(users, input.userId);
      if u.None? {
        return Err(UserNotFound);
      }
      var user := users[u.value];
      if user.balance < product.price {
        return Err(InsufficientBalance);
      }
      var t := InsertTransaction(
        NewTransaction(input.userId, input.productId, product.price, Some(Pending),
                       input.targetNumber, None, NotesOrNull(input.notes)),
        nextTransactionId, now);
      transactions := transactions + [t];
      nextTransactionId := nextTransactionId + 1;
      users := users[u.value := user.(balance := user.balance - product.price, updatedAt := now)];
      r := Ok(t);
      assert Purchase(before, input, now) == Step(r, State());
      PurchaseKeepsInvariants(before, input, now);
    }

    /** `topUpBalance`. */
    method TopUpBalance(input: TopUpInput, now: Timestamp) returns (r: Result<User, Error>)
      requires Valid(State())
      modifies this
      ensures var s := TopUp(old(State()), input, now);
              r == s.out && State() == s.db
      ensures Valid(State())
      ensures old(Reconciled(State())) ==> Reconciled(State())
      ensures old(Solvent(State())) && ValidTopUpInput(input) ==> Solvent(State())
    {
      ghost var before := State();
      var u := FindUser(users, input.userId);
      if u.None? {
        return Err(UnknownUserId(input.userId));
      }
      var current := users[u.value];
      var updated := current.(balance := current.balance + input.amount, updatedAt := now);
      users := users[u.value := updated];
      var t := TopUpRow(current, input, nextTransactionId, now);
      transactions := transactions + [t];
      nextTransactionId := nextTransactionId + 1;
      r := Ok(updated);
      assert TopUp(before, input, now) == Step(r, State());
      TopUpKeepsInvariants(before, input, now);
    }

    /** `updateUserProfile`: builds the new row field by field. */
    method UpdateUserProfile(input: UpdateProfileInput, now: Timestamp) returns (r: Result<User, Error>)
      requires Valid(State())
      modifies this
      ensures var s := UpdateProfile(old(State()), input, now);
              r == s.out && State() == s.db
      ensures Valid(State())
      ensures old(Reconciled(State())) ==> Reconciled(State())
    {
      ghost var before := State();
      if Reconciled(before) {
        UpdateProfileReconciled(before, input, now);
      }
      var u := FindUser(users, input.userId);
      if u.None? {
        return Err(UnknownUserId(input.userId));
      }
      var row := users[u.value].(updatedAt := now);
      if input.fullName.Some? {
        row := row.(fullName := input.fullName.value);
      }
      if input.phoneNumber.Some? {
        row := row.(phoneNumber := input.phoneNumber.value);
      }
      users := users[u.value := row];
      r := Ok(row);
    }

    /** `signUp`. */
    method SignUp(input: SignUpInput, salt: string, digest: string -> string,
                  token: (int, string, Timestamp) -> string, now: Timestamp)
      returns (r: Result<AuthResponse, Error>)
      requires Valid(State())
      modifies this
      ensures var s := Register(old(State()), input, salt, digest, token, now);
              r == s.out && State() == s.db
      ensures Valid(State())
      ensures old(Reconciled(State())) ==> Reconciled(State())
    {
      ghost var before := State();
      if Reconciled(before) {
        RegisterReconciled(before, input, salt, digest, token, now);
      }
      var email := Text.ToLower(input.email);
      var existing := FindUserByEmail(users, email);
      if existing.Some? {
        return Err(EmailTaken);
      }
      var user := InsertUser(
        NewUser(email, PasswordHash(input.password, salt, digest), input.fullName, input.phoneNumber,
                Some(0), Some(false)),
        nextUserId, now);
      users := users + [user];
      nextUserId := nextUserId + 1;
      r := Ok(AuthResponse(user, token(user.id, user.email, now)));
    }
  }
}
