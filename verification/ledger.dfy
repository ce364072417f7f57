/** The two balance-changing handlers, `createTransaction` (a purchase) and
    `topUpBalance`, as transitions of the database, with the ledger
    invariants they keep. */
module Ledger {
  import opened Common
  import opened DbSchema
  import opened ApiSchema

  /** The `product_id` that marks a top-up row. */
  const TopUpProductId := 0

  /** `input.notes || null`: an empty note is stored as null. */
  function NotesOrNull(notes: Option<string>): (r: Option<string>)
    ensures r.Some? <==> notes.Some? && notes.value != ""
    ensures r.Some? ==> r.value == notes.value
  {
    if notes.Some? && notes.value != "" then notes else None
  }

  /** The product exists and is active: the two checks a purchase makes first. */
  predicate OnSale(products: seq<Product>, id: int)
  {
    var p := FindProduct(products, id);
    p.Some? && products[p.value].isActive
  }

  function PriceOf(products: seq<Product>, id: int): Cents
    requires FindProduct(products, id).Some?
  {
    products[FindProduct(products, id).value].price
  }

  /** The user exists and the balance covers `price` (equality suffices). */
  predicate CanAfford(users: seq<User>, id: int, price: Cents)
  {
    var u := FindUser(users, id);
    u.Some? && users[u.value].balance >= price
  }

  /** `createTransaction`: look the product up, check it is active, look the
      user up, check the balance, then append a pending row and debit the
      price. Its outcome is stated by `PurchaseOutcome`, what a success
      writes by `PurchaseRecorded`. */
  function Purchase(db: Db, input: CreateTransactionInput, now: Timestamp): (s: Step<Transaction>)
    // every error leaves the database as it was
    ensures s.out.Err? ==> s.db == db
    ensures s.db.products == db.products && s.db.providers == db.providers
    ensures s.db.nextUserId == db.nextUserId
  {
    match FindProduct(db.products, input.productId)
    case None => Step(Err(ProductNotFound), db)
    case Some(p) =>
      var product := db.products[p];
      if !product.isActive then Step(Err(ProductInactive), db)
      else match FindUser(db.users, input.userId)
        case None => Step(Err(UserNotFound), db)
        case Some(u) =>
          var user := db.users[u];
          if user.balance < product.price then Step(Err(InsufficientBalance), db)
          else
            var t := InsertTransaction(
              NewTransaction(input.userId, input.productId, product.price, Some(Pending),
                             input.targetNumber, None, NotesOrNull(input.notes)),
              db.nextTransactionId, now);
            var users := db.users[u := user.(balance := user.balance - product.price, updatedAt := now)];
            Step(Ok(t), db.(users := users, transactions := db.transactions + [t],
                            nextTransactionId := db.nextTransactionId + 1))
  }

  /** The outcome of a purchase: the four errors, in the order they are
      checked, and success exactly when the product is on sale and the
      buyer can afford it. */
  lemma PurchaseOutcome(db: Db, input: CreateTransactionInput, now: Timestamp)
    ensures var s := Purchase(db, input, now);
            && (s.out == Err(ProductNotFound) <==> FindProduct(db.products, input.productId).None?)
            && (s.out == Err(ProductInactive) <==>
                  FindProduct(db.products, input.productId).Some? && !OnSale(db.products, input.productId))
            && (s.out == Err(UserNotFound) <==>
                  OnSale(db.products, input.productId) && FindUser(db.users, input.userId).None?)
            && (s.out == Err(InsufficientBalance) <==>
                  && OnSale(db.products, input.productId) && FindUser(db.users, input.userId).Some?
                  && !CanAfford(db.users, input.userId, PriceOf(db.products, input.productId)))
            && (s.out.Ok? <==>
                  OnSale(db.products, input.productId)
                  && CanAfford(db.users, input.userId, PriceOf(db.products, input.productId)))
  {
  }

  /** A successful purchase appends exactly one row, holding the current
      price, and debits exactly the buyer by that price. */
  lemma PurchaseRecorded(db: Db, input: CreateTransactionInput, now: Timestamp)
    requires Purchase(db, input, now).out.Ok?
    ensures var s := Purchase(db, input, now);
            var t := s.out.value;
            && s.db.transactions == db.transactions + [t]
            && t.id == db.nextTransactionId && s.db.nextTransactionId == db.nextTransactionId + 1
            && t.userId == input.userId && t.productId == input.productId
            && t.amount == PriceOf(db.products, input.productId)
            && t.status == Pending && t.referenceId == None
            && t.targetNumber == input.targetNumber && t.notes == NotesOrNull(input.notes)
            && t.createdAt == now && t.updatedAt == now
    ensures var s := Purchase(db, input, now);
            var u := FindUser(db.users, input.userId).value;
            s.db.users == db.users[u := db.users[u].(balance := db.users[u].balance - s.out.value.amount,
                                                     updatedAt := now)]
  {
  }

  /** A purchase keeps the keys. */
  lemma PurchaseKeepsKeys(db: Db, input: CreateTransactionInput, now: Timestamp)
    requires Valid(db)
    ensures Valid(Purchase(db, input, now).db)
  {
    var s := Purchase(db, input, now);
    if s.out.Ok? {
      PurchaseRecorded(db, input, now);
      var u := FindUser(db.users, input.userId).value;
      UpdateUserKeyed(db.users, db.nextUserId, u, s.db.users[u]);
      AppendTransactionKeyed(db.transactions, db.nextTransactionId, s.out.value);
    }
  }

  /** A purchase never drives a balance below zero. */
  lemma PurchaseKeepsSolvent(db: Db, input: CreateTransactionInput, now: Timestamp)
    requires Solvent(db)
    ensures Solvent(Purchase(db, input, now).db)
  {
    if Purchase(db, input, now).out.Ok? {
      PurchaseRecorded(db, input, now);
    }
  }

  /** The target of a top-up row: the phone number, or the email when the
      phone is null or empty (`phone_number || email`). */
  function TopUpTarget(u: User): (r: string)
    ensures r == u.email || (u.phoneNumber == Some(r) && r != "")
    ensures u.phoneNumber.Some? && u.phoneNumber.value != "" ==> r == u.phoneNumber.value
  {
    if u.phoneNumber.Some? && u.phoneNumber.value != "" then u.phoneNumber.value else u.email
  }

  /** `TOPUP_<time>_<user id>`. */
  function TopUpReference(now: Timestamp, userId: int): string
  {
    Pair("TOPUP_", now, userId)
  }

  /** With a clock past the epoch and a serial user id the reference has
      the shape `^TOPUP_\d+_\d+$`. */
  lemma TopUpReferenceFormat(now: Timestamp, userId: int)
    requires now >= 0 && userId >= 0
    ensures MatchesPrefixDigitsPair(TopUpReference(now, userId), "TOPUP_")
  {
    PairMatches("TOPUP_", now, userId);
  }

  /** Two top-ups share a reference exactly when they are for the same
      user in the same millisecond. */
  lemma TopUpReferenceIdentifies(now: Timestamp, userId: int, now': Timestamp, userId': int)
    ensures TopUpReference(now, userId) == TopUpReference(now', userId') <==> now == now' && userId == userId'
  {
    if TopUpReference(now, userId) == TopUpReference(now', userId') {
      PairInjective("TOPUP_", now, userId, now', userId');
    }
  }

  function TopUpNotes(amount: Cents): string
  {
    "Balance top-up of " + FormatAmount(amount)
  }

  /** The notes the top-up tests expect. */
  lemma TopUpNotesExamples()
    ensures TopUpNotes(2500000) == "Balance top-up of 25000"
    ensures TopUpNotes(99975) == "Balance top-up of 999.75"
  {
    FormatAmountExamples();
  }

  /** The row a top-up of `current` inserts under serial `id`: a successful
      credit of the amount to the user. */
  function TopUpRow(current: User, input: TopUpInput, id: int, now: Timestamp): (t: Transaction)
    ensures t.id == id && t.userId == input.userId && t.status == Success
    ensures Signed(t) == input.amount
  {
    InsertTransaction(
      NewTransaction(input.userId, TopUpProductId, input.amount, Some(Success),
                     TopUpTarget(current), Some(TopUpReference(now, input.userId)),
                     Some(TopUpNotes(input.amount))),
      id, now)
  }

  /** `topUpBalance`: look the user up, credit the amount, then append a
      successful row with product id 0. What a success writes is stated by
      `TopUpRecorded`. */
  function TopUp(db: Db, input: TopUpInput, now: Timestamp): (s: Step<User>)
    ensures s.out.Err? <==> FindUser(db.users, input.userId).None?
    ensures s.out.Err? ==> s.out.error == UnknownUserId(input.userId) && s.db == db
    ensures s.db.products == db.products && s.db.providers == db.providers
    ensures s.db.nextUserId == db.nextUserId
  {
    match FindUser(db.users, input.userId)
    case None => Step(Err(UnknownUserId(input.userId)), db)
    case Some(u) =>
      var current := db.users[u];
      var updated := current.(balance := current.balance + input.amount, updatedAt := now);
      var t := TopUpRow(current, input, db.nextTransactionId, now);
      Step(Ok(updated), db.(users := db.users[u := updated], transactions := db.transactions + [t],
                            nextTransactionId := db.nextTransactionId + 1))
  }

  /** A successful top-up changes the stored user in balance and
      `updated_at` only and returns that row; it appends exactly one
      successful row with product id 0 for the amount. */
  lemma TopUpRecorded(db: Db, input: TopUpInput, now: Timestamp)
    requires TopUp(db, input, now).out.Ok?
    ensures var s := TopUp(db, input, now);
            var u := FindUser(db.users, input.userId).value;
            && s.out.value == db.users[u].(balance := db.users[u].balance + input.amount, updatedAt := now)
            && s.db.users == db.users[u := s.out.value]
    ensures var s := TopUp(db, input, now);
            var u := FindUser(db.users, input.userId).value;
            var t := TopUpRow(db.users[u], input, db.nextTransactionId, now);
            && s.db.transactions == db.transactions + [t]
            && t.id == db.nextTransactionId && s.db.nextTransactionId == db.nextTransactionId + 1
            && t.userId == input.userId && t.productId == TopUpProductId
            && t.amount == input.amount && t.status == Success
            && t.targetNumber == TopUpTarget(db.users[u])
            && t.referenceId == Some(TopUpReference(now, input.userId))
            && t.notes == Some(TopUpNotes(input.amount))
            && t.createdAt == now && t.updatedAt == now
  {
  }

  /** A top-up keeps the keys. */
  lemma TopUpKeepsKeys(db: Db, input: TopUpInput, now: Timestamp)
    requires Valid(db)
    ensures Valid(TopUp(db, input, now).db)
  {
    var s := TopUp(db, input, now);
    if s.out.Ok? {
      TopUpRecorded(db, input, now);
      var u := FindUser(db.users, input.userId).value;
      UpdateUserKeyed(db.users, db.nextUserId, u, s.out.value);
      AppendTransactionKeyed(db.transactions, db.nextTransactionId,
                             TopUpRow(db.users[u], input, db.nextTransactionId, now));
    }
  }

  /** A top-up of a positive amount never makes a balance negative. */
  lemma TopUpKeepsSolvent(db: Db, input: TopUpInput, now: Timestamp)
    requires Solvent(db) && ValidTopUpInput(input)
    ensures Solvent(TopUp(db, input, now).db)
  {
    if TopUp(db, input, now).out.Ok? {
      TopUpRecorded(db, input, now);
    }
  }

  /** A top-up keeps the keys, the reconciliation and solvency. */
  lemma TopUpKeepsInvariants(db: Db, input: TopUpInput, now: Timestamp)
    requires Valid(db)
    ensures Valid(TopUp(db, input, now).db)
    ensures Reconciled(db) ==> Reconciled(TopUp(db, input, now).db)
    ensures Solvent(db) && ValidTopUpInput(input) ==> Solvent(TopUp(db, input, now).db)
  {
    TopUpKeepsKeys(db, input, now);
    if Reconciled(db) {
      TopUpReconciled(db, input, now);
    }
    if Solvent(db) && ValidTopUpInput(input) {
      TopUpKeepsSolvent(db, input, now);
    }
  }

  /** A validated top-up strictly increases the balance. */
  lemma TopUpIncreasesBalance(db: Db, input: TopUpInput, now: Timestamp)
    requires ValidTopUpInput(input)
    requires FindUser(db.users, input.userId).Some?
    ensures var u := FindUser(db.users, input.userId).value;
            TopUp(db, input, now).db.users[u].balance > db.users[u].balance
  {
    TopUpRecorded(db, input, now);
  }

  /** No balance is negative. */
  predicate Solvent(db: Db)
  {
    forall i :: 0 <= i < |db.users| ==> db.users[i].balance >= 0
  }

  /** What a row does to its user's balance: a top-up credits, a purchase debits. */
  function Signed(t: Transaction): int
  {
    if t.productId == TopUpProductId then t.amount else -t.amount
  }

  /** The sum of the signed amounts of one user's rows. */
  function Net(transactions: seq<Transaction>, userId: int): int
  {
    if transactions == [] then 0
    else
      var last := transactions[|transactions| - 1];
      Net(transactions[..|transactions| - 1], userId) + (if last.userId == userId then Signed(last) else 0)
  }

  lemma NetAppend(transactions: seq<Transaction>, t: Transaction, userId: int)
    ensures Net(transactions + [t], userId) ==
            Net(transactions, userId) + (if t.userId == userId then Signed(t) else 0)
  {
    assert (transactions + [t])[..|transactions|] == transactions;
  }

  /** A user with no rows has a net of zero. */
  lemma {:induction false} NetOfStranger(transactions: seq<Transaction>, userId: int)
    requires forall j :: 0 <= j < |transactions| ==> transactions[j].userId != userId
    ensures Net(transactions, userId) == 0
  {
    if transactions != [] {
      NetOfStranger(transactions[..|transactions| - 1], userId);
    }
  }

  /** Every balance is the signed sum of its user's rows (accounts start at
      zero), and every row belongs to an id the users serial has issued. */
  predicate Reconciled(db: Db)
  {
    && (forall i :: 0 <= i < |db.users| ==> db.users[i].balance == Net(db.transactions, db.users[i].id))
    && (forall j :: 0 <= j < |db.transactions| ==> db.transactions[j].userId < db.nextUserId)
  }

  /** Recording one row for an existing user, and moving that user's
      balance by exactly the row's signed amount, keeps the ledger
      reconciled. */
  lemma RecordKeepsReconciled(db: Db, u: nat, v: User, t: Transaction, nextTransactionId: int)
    requires Reconciled(db) && UsersKeyed(db.users, db.nextUserId)
    requires u < |db.users| && t.userId == db.users[u].id && v.id == t.userId
    requires v.balance == db.users[u].balance + Signed(t)
    ensures Reconciled(db.(users := db.users[u := v], transactions := db.transactions + [t],
                           nextTransactionId := nextTransactionId))
  {
    var users, transactions := db.users[u := v], db.transactions + [t];
    forall i | 0 <= i < |users| ensures users[i].balance == Net(transactions, users[i].id) {
      NetAppend(db.transactions, t, db.users[i].id);
      if i != u {
        assert db.users[i].id != t.userId;
      }
    }
    forall j | 0 <= j < |transactions| ensures transactions[j].userId < db.nextUserId {
      if j < |db.transactions| {
        assert transactions[j] == db.transactions[j];
      }
    }
  }

  lemma PurchaseReconciled(db: Db, input: CreateTransactionInput, now: Timestamp)
    requires Valid(db) && Reconciled(db)
    ensures Reconciled(Purchase(db, input, now).db)
  {
    var s := Purchase(db, input, now);
    if s.out.Ok? {
      PurchaseRecorded(db, input, now);
      var u := FindUser(db.users, input.userId).value;
      var p := FindProduct(db.products, input.productId).value;
      assert db.products[p].id == input.productId;
      RecordKeepsReconciled(db, u, s.db.users[u], s.out.value, s.db.nextTransactionId);
    }
  }

  lemma TopUpReconciled(db: Db, input: TopUpInput, now: Timestamp)
    requires Valid(db) && Reconciled(db)
    ensures Reconciled(TopUp(db, input, now).db)
  {
    var s := TopUp(db, input, now);
    if s.out.Ok? {
      TopUpRecorded(db, input, now);
      var u := FindUser(db.users, input.userId).value;
      RecordKeepsReconciled(db, u, s.out.value, TopUpRow(db.users[u], input, db.nextTransactionId, now),
                            s.db.nextTransactionId);
    }
  }

  /** A purchase keeps the keys, the reconciliation and solvency. */
  lemma PurchaseKeepsInvariants(db: Db, input: CreateTransactionInput, now: Timestamp)
    requires Valid(db)
    ensures Valid(Purchase(db, input, now).db)
    ensures Reconciled(db) ==> Reconciled(Purchase(db, input, now).db)
    ensures Solvent(db) ==> Solvent(Purchase(db, input, now).db)
  {
    PurchaseKeepsKeys(db, input, now);
    if Reconciled(db) {
      PurchaseReconciled(db, input, now);
    }
    if Solvent(db) {
      PurchaseKeepsSolvent(db, input, now);
    }
  }

  /** `n` identical purchase requests, one after the other. */
  function Purchases(db: Db, input: CreateTransactionInput, now: Timestamp, n: nat): Db
    decreases n
  {
    if n == 0 then db else Purchases(Purchase(db, input, now).db, input, now, n - 1)
  }

  /** A lookup by id sees only the ids. */
  lemma {:induction false} FindUserSameIds(users: seq<User>, users': seq<User>, id: int)
    requires |users| == |users'|
    requires forall i :: 0 <= i < |users| ==> users[i].id == users'[i].id
    ensures FindUser(users, id) == FindUser(users', id)
  {
    if users != [] {
      FindUserSameIds(users[1..], users'[1..], id);
    }
  }

  /** A purchase the balance covers goes through and debits the price. */
  lemma PurchaseGoesThrough(db: Db, input: CreateTransactionInput, now: Timestamp, u: nat, p: nat)
    requires FindProduct(db.products, input.productId) == Some(p) && db.products[p].isActive
    requires FindUser(db.users, input.userId) == Some(u)
    requires db.users[u].balance >= db.products[p].price
    ensures var s := Purchase(db, input, now);
            && s.out.Ok? && s.db.products == db.products
            && FindUser(s.db.users, input.userId) == Some(u) && |s.db.users| == |db.users|
            && s.db.users[u].balance == db.users[u].balance - db.products[p].price
            && |s.db.transactions| == |db.transactions| + 1
  {
    var s := Purchase(db, input, now);
    PurchaseRecorded(db, input, now);
    FindUserSameIds(db.users, s.db.users, input.userId);
  }

  /** A purchase the balance does not cover changes nothing. */
  lemma PurchaseRefused(db: Db, input: CreateTransactionInput, now: Timestamp, u: nat, p: nat)
    requires FindProduct(db.products, input.productId) == Some(p)
    requires FindUser(db.users, input.userId) == Some(u)
    requires db.users[u].balance < db.products[p].price
    ensures Purchase(db, input, now).db == db
  {
  }

  /** Once a purchase is refused, repeating it changes nothing. */
  lemma {:induction false} NoPurchasesAfterRefusal(db: Db, input: CreateTransactionInput, now: Timestamp, n: nat)
    requires Purchase(db, input, now).db == db
    ensures Purchases(db, input, now, n) == db
    decreases n
  {
    if n > 0 {
      NoPurchasesAfterRefusal(db, input, now, n - 1);
    }
  }

  /** The balance left after `n` attempts to pay `price` from `balance`,
      each one refused once the balance no longer covers the price. */
  function BalanceAfter(balance: Cents, price: Cents, n: nat): Cents
    decreases n
  {
    if n == 0 || balance < price then balance else BalanceAfter(balance - price, price, n - 1)
  }

  /** How many of those `n` attempts go through. */
  function Paid(balance: Cents, price: Cents, n: nat): nat
    decreases n
  {
    if n == 0 || balance < price then 0 else 1 + Paid(balance - price, price, n - 1)
  }

  /** `n` purchases in a row of one product by one user: each goes through
      exactly while the balance still covers the price, and each that goes
      through adds one row and debits the price once. */
  lemma {:induction false} RepeatedPurchases(
    db: Db, input: CreateTransactionInput, now: Timestamp, n: nat, u: nat, p: nat)
    requires FindProduct(db.products, input.productId) == Some(p) && db.products[p].isActive
    requires FindUser(db.users, input.userId) == Some(u)
    ensures var after := Purchases(db, input, now, n);
            var price, balance := db.products[p].price, db.users[u].balance;
            && |after.users| == |db.users|
            && after.users[u].balance == BalanceAfter(balance, price, n)
            && |after.transactions| == |db.transactions| + Paid(balance, price, n)
    decreases n, 1
  {
    if n > 0 && db.users[u].balance >= db.products[p].price {
      PaidPurchasesThenRepeat(db, input, now, n, u, p);
    } else if n > 0 {
      PurchaseRefused(db, input, now, u, p);
      NoPurchasesAfterRefusal(db, input, now, n);
    }
  }

  /** The first of `n` purchases goes through; the rest are `n - 1` repeats
      from the debited balance. */
  lemma {:induction false} PaidPurchasesThenRepeat(
    db: Db, input: CreateTransactionInput, now: Timestamp, n: nat, u: nat, p: nat)
    requires FindProduct(db.products, input.productId) == Some(p) && db.products[p].isActive
    requires FindUser(db.users, input.userId) == Some(u)
    requires n > 0 && db.users[u].balance >= db.products[p].price
    ensures var after := Purchases(db, input, now, n);
            var price, balance := db.products[p].price, db.users[u].balance;
            && |after.users| == |db.users|
            && after.users[u].balance == BalanceAfter(balance, price, n)
            && |after.transactions| == |db.transactions| + Paid(balance, price, n)
    decreases n, 0
  {
    var next := Purchase(db, input, now).db;
    PurchaseGoesThrough(db, input, now, u, p);
    RepeatedPurchases(next, input, now, n - 1, u, p);
    var price, balance := db.products[p].price, db.users[u].balance;
    assert next.users[u].balance == balance - price && next.products[p].price == price;
    assert Purchases(db, input, now, n) == Purchases(next, input, now, n - 1);
    assert BalanceAfter(balance, price, n) == BalanceAfter(balance - price, price, n - 1);
    assert Paid(balance, price, n) == 1 + Paid(balance - price, price, n - 1);
  }

  lemma MultiplySuccessor(a: int, b: int)
    ensures (a + 1) * b == a * b + b
  {
  }

  /** With a balance that covers the price exactly `k` times over, `n`
      attempts pay `min(n, k)` times. */
  lemma {:induction false} PaidTimes(balance: Cents, price: Cents, n: nat, k: nat)
    requires price > 0
    requires k * price <= balance < (k + 1) * price
    ensures var m := if n <= k then n else k;
            && Paid(balance, price, n) == m
            && BalanceAfter(balance, price, n) == balance - m * price
  {
    MultiplySuccessor(k, price);
    if n > 0 {
      if k > 0 {
        MultiplySuccessor(k - 1, price);
        assert (k - 1) * price >= 0;
        PaidTimes(balance - price, price, n - 1, k - 1);
        var m' := if n - 1 <= k - 1 then n - 1 else k - 1;
        MultiplySuccessor(m', price);
      }
    }
  }

  /** Two purchases of 25000 from a balance of 100000 both go through and
      leave 50000; a third and a fourth would too, a fifth would not. */
  lemma TwoPurchasesOf25000(db: Db, input: CreateTransactionInput, now: Timestamp, u: nat, p: nat)
    requires Valid(db)
    requires p < |db.products| && db.products[p].id == input.productId
    requires db.products[p].isActive && db.products[p].price == 25000_00
    requires u < |db.users| && db.users[u].id == input.userId && db.users[u].balance == 100000_00
    ensures var after := Purchases(db, input, now, 2);
            && after.users[u].balance == 50000_00
            && |after.transactions| == |db.transactions| + 2
    ensures Paid(100000_00, 25000_00, 5) == 4
  {
    FindProductKeyed(db.products, p);
    FindUserKeyed(db.users, db.nextUserId, u);
    RepeatedPurchases(db, input, now, 2, u, p);
    PaidTimes(100000_00, 25000_00, 5, 4);
  }

  /** A missing or inactive product decides the outcome before any user
      is looked at: the users table and the balances play no part. */
  lemma ProductChecksComeFirst(db: Db, other: Db, input: CreateTransactionInput, now: Timestamp)
    requires db.products == other.products
    requires !OnSale(db.products, input.productId)
    ensures Purchase(db, input, now).out == Purchase(other, input, now).out
  {
  }
}
