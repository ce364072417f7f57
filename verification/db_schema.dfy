/** The four tables, their enums and column defaults, and the keys the
    database enforces (serial primary keys, unique email). */
module DbSchema {
  import opened Common

  datatype Category =
    | Games | EMoney | Pulsa | Data | TlpSms | MasaAktif | Pln | Voucher | Streaming | Pascabayar

  /** The labels of the `service_category` enum. */
  function CategoryName(c: Category): string
  {
    match c
    case Games => "games"
    case EMoney => "e_money"
    case Pulsa => "pulsa"
    case Data => "data"
    case TlpSms => "tlp_sms"
    case MasaAktif => "masa_aktif"
    case Pln => "pln"
    case Voucher => "voucher"
    case Streaming => "streaming"
    case Pascabayar => "pascabayar"
  }

  const Categories: seq<Category> :=
    [Games, EMoney, Pulsa, Data, TlpSms, MasaAktif, Pln, Voucher, Streaming, Pascabayar]

  /** The enum has exactly ten members, with ten distinct labels. */
  lemma CategoriesEnumerated()
    ensures |Categories| == 10
    ensures forall c: Category :: c in Categories
    ensures forall i, j :: 0 <= i < j < |Categories| ==>
              CategoryName(Categories[i]) != CategoryName(Categories[j])
  {
    forall c: Category ensures c in Categories {
      match c
      case Games => case EMoney => case Pulsa => case Data => case TlpSms =>
      case MasaAktif => case Pln => case Voucher => case Streaming => case Pascabayar =>
    }
  }

  datatype TransactionStatus = Pending | Processing | Success | Failed | Cancelled

  /** The labels of the `transaction_status` enum. */
  function StatusName(s: TransactionStatus): string
  {
    match s
    case Pending => "pending"
    case Processing => "processing"
    case Success => "success"
    case Failed => "failed"
    case Cancelled => "cancelled"
  }

  const Statuses: seq<TransactionStatus> := [Pending, Processing, Success, Failed, Cancelled]

  lemma StatusesEnumerated()
    ensures |Statuses| == 5
    ensures forall s: TransactionStatus :: s in Statuses
    ensures forall i, j :: 0 <= i < j < |Statuses| ==>
              StatusName(Statuses[i]) != StatusName(Statuses[j])
  {
    forall s: TransactionStatus ensures s in Statuses {
      match s
      case Pending => case Processing => case Success => case Failed => case Cancelled =>
    }
  }

  datatype User = User(
    id: int,
    email: string,
    passwordHash: string,
    fullName: string,
    phoneNumber: Option<string>,
    balance: Cents,
    isVerified: bool,
    createdAt: Timestamp,
    updatedAt: Timestamp)

  datatype Provider = Provider(
    id: int,
    name: string,
    category: Category,
    logoUrl: Option<string>,
    isActive: bool,
    createdAt: Timestamp)

  datatype Product = Product(
    id: int,
    providerId: int,
    name: string,
    description: Option<string>,
    price: Cents,
    nominalValue: string,
    isActive: bool,
    createdAt: Timestamp)

  datatype Transaction = Transaction(
    id: int,
    userId: int,
    productId: int,
    amount: Cents,
    status: TransactionStatus,
    targetNumber: string,
    referenceId: Option<string>,
    notes: Option<string>,
    createdAt: Timestamp,
    updatedAt: Timestamp)

  // Column defaults.
  const DefaultBalance: Cents := 0
  const DefaultIsVerified := false
  const DefaultIsActive := true
  const DefaultStatus := Pending

  function OrDefault<T>(given: Option<T>, default: T): T
  {
    if given.Some? then given.value else default
  }

  /** The values an insert into `users` supplies; `None` leaves the column
      to its default. */
  datatype NewUser = NewUser(
    email: string,
    passwordHash: string,
    fullName: string,
    phoneNumber: Option<string>,
    balance: Option<Cents>,
    isVerified: Option<bool>)

  /** The row the database stores for an insert, given the next serial id
      and the clock. */
  function InsertUser(n: NewUser, id: int, now: Timestamp): (u: User)
    ensures u.id == id && u.createdAt == now && u.updatedAt == now
    ensures u.email == n.email && u.passwordHash == n.passwordHash
    ensures u.fullName == n.fullName && u.phoneNumber == n.phoneNumber
    ensures n.balance.None? ==> u.balance == 0
    ensures n.balance.Some? ==> u.balance == n.balance.value
    ensures n.isVerified.None? ==> !u.isVerified
    ensures n.isVerified.Some? ==> u.isVerified == n.isVerified.value
  {
    User(id, n.email, n.passwordHash, n.fullName, n.phoneNumber,
         OrDefault(n.balance, DefaultBalance), OrDefault(n.isVerified, DefaultIsVerified), now, now)
  }

  datatype NewProvider = NewProvider(
    name: string, category: Category, logoUrl: Option<string>, isActive: Option<bool>)

  function InsertProvider(n: NewProvider, id: int, now: Timestamp): (p: Provider)
    ensures p.id == id && p.createdAt == now
    ensures p.name == n.name && p.category == n.category && p.logoUrl == n.logoUrl
    ensures n.isActive.None? ==> p.isActive
    ensures n.isActive.Some? ==> p.isActive == n.isActive.value
  {
    Provider(id, n.name, n.category, n.logoUrl, OrDefault(n.isActive, DefaultIsActive), now)
  }

  datatype NewProduct = NewProduct(
    providerId: int, name: string, description: Option<string>, price: Cents,
    nominalValue: string, isActive: Option<bool>)

  function InsertProduct(n: NewProduct, id: int, now: Timestamp): (p: Product)
    ensures p.id == id && p.createdAt == now
    ensures p.providerId == n.providerId && p.price == n.price
    ensures n.isActive.None? ==> p.isActive
    ensures n.isActive.Some? ==> p.isActive == n.isActive.value
  {
    Product(id, n.providerId, n.name, n.description, n.price, n.nominalValue,
            OrDefault(n.isActive, DefaultIsActive), now)
  }

  datatype NewTransaction = NewTransaction(
    userId: int,
    productId: int,
    amount: Cents,
    status: Option<TransactionStatus>,
    targetNumber: string,
    referenceId: Option<string>,
    notes: Option<string>)

  function InsertTransaction(n: NewTransaction, id: int, now: Timestamp): (t: Transaction)
    ensures t.id == id && t.createdAt == now && t.updatedAt == now
    ensures t.userId == n.userId && t.productId == n.productId && t.amount == n.amount
    ensures n.status.None? ==> t.status == Pending
    ensures n.status.Some? ==> t.status == n.status.value
    ensures t.targetNumber == n.targetNumber
    ensures t.referenceId == n.referenceId && t.notes == n.notes
  {
    Transaction(id, n.userId, n.productId, n.amount, OrDefault(n.status, DefaultStatus),
                n.targetNumber, n.referenceId, n.notes, now, now)
  }

  /** The whole database: the four tables and the next values of the two
      serial sequences that the modelled handlers draw from. */
  datatype Db = Db(
    users: seq<User>,
    providers: seq<Provider>,
    products: seq<Product>,
    transactions: seq<Transaction>,
    nextUserId: int,
    nextTransactionId: int)

  /** What a handler call leaves behind: its result and the new database. */
  datatype Step<+T> = Step(out: Result<T, Error>, db: Db)

  /** The database enforces that `id` (the primary key) and `email` are
      unique. That every id lies between 1 and the next serial value is an
      assumption: it holds when every row took the serial default, which
      is how the handlers insert them. */
  predicate UsersKeyed(users: seq<User>, nextId: int)
  {
    && 1 <= nextId
    && (forall i, j :: 0 <= i < j < |users| ==> users[i].id != users[j].id)
    && (forall i, j :: 0 <= i < j < |users| ==> users[i].email != users[j].email)
    && (forall i :: 0 <= i < |users| ==> 1 <= users[i].id < nextId)
  }

  /** Unique primary key (enforced); ids from 1 (assumed, as above). */
  predicate ProvidersKeyed(providers: seq<Provider>)
  {
    && (forall i, j :: 0 <= i < j < |providers| ==> providers[i].id != providers[j].id)
    && (forall i :: 0 <= i < |providers| ==> 1 <= providers[i].id)
  }

  /** Unique primary key (enforced); ids from 1 (assumed, as above). The
      assumption matters: the ledger reads product id 0 as a top-up. */
  predicate ProductsKeyed(products: seq<Product>)
  {
    && (forall i, j :: 0 <= i < j < |products| ==> products[i].id != products[j].id)
    && (forall i :: 0 <= i < |products| ==> 1 <= products[i].id)
  }

  /** Unique primary key (enforced); ids between 1 and the next serial
      value (assumed, as above). */
  predicate TransactionsKeyed(transactions: seq<Transaction>, nextId: int)
  {
    && 1 <= nextId
    && (forall i, j :: 0 <= i < j < |transactions| ==> transactions[i].id != transactions[j].id)
    && (forall i :: 0 <= i < |transactions| ==> 1 <= transactions[i].id < nextId)
  }

  /** The keys of the four tables: uniqueness, which the database enforces,
      together with the serial-default bounds on ids, which are assumed of
      every row the model starts from and which the handlers preserve. */
  predicate Valid(db: Db)
  {
    && UsersKeyed(db.users, db.nextUserId)
    && ProvidersKeyed(db.providers)
    && ProductsKeyed(db.products)
    && TransactionsKeyed(db.transactions, db.nextTransactionId)
  }

  /** A fresh database: empty tables, serials starting at 1. */
  const EmptyDb := Db([], [], [], [], 1, 1)

  /** The index of the row with primary key `id`: `select ... where id = ?`
      followed by `[0]`. */
  function FindUser(users: seq<User>, id: int): (r: Option<nat>)
    ensures r.Some? ==> r.value < |users| && users[r.value].id == id
    ensures r.Some? ==> forall j :: 0 <= j < r.value ==> users[j].id != id
    ensures r.None? <==> forall j :: 0 <= j < |users| ==> users[j].id != id
  {
    if users == [] then None
    else if users[0].id == id then Some(0)
    else match FindUser(users[1..], id)
      case None => None
      case Some(k) => Some(k + 1)
  }

  /** `select ... where email = ?`: an exact, case-sensitive match. */
  function FindUserByEmail(users: seq<User>, email: string): (r: Option<nat>)
    ensures r.Some? ==> r.value < |users| && users[r.value].email == email
    ensures r.Some? ==> forall j :: 0 <= j < r.value ==> users[j].email != email
    ensures r.None? <==> forall j :: 0 <= j < |users| ==> users[j].email != email
  {
    if users == [] then None
    else if users[0].email == email then Some(0)
    else match FindUserByEmail(users[1..], email)
      case None => None
      case Some(k) => Some(k + 1)
  }

  function FindProduct(products: seq<Product>, id: int): (r: Option<nat>)
    ensures r.Some? ==> r.value < |products| && products[r.value].id == id
    ensures r.Some? ==> forall j :: 0 <= j < r.value ==> products[j].id != id
    ensures r.None? <==> forall j :: 0 <= j < |products| ==> products[j].id != id
  {
    if products == [] then None
    else if products[0].id == id then Some(0)
    else match FindProduct(products[1..], id)
      case None => None
      case Some(k) => Some(k + 1)
  }

  /** Under the primary key, the row found is the only one with that id. */
  lemma FindUserKeyed(users: seq<User>, nextId: int, i: nat)
    requires UsersKeyed(users, nextId) && i < |users|
    ensures FindUser(users, users[i].id) == Some(i)
  {
  }

  /** Under the unique email, the row found by email is the only one with it. */
  lemma FindUserByEmailKeyed(users: seq<User>, nextId: int, i: nat)
    requires UsersKeyed(users, nextId) && i < |users|
    ensures FindUserByEmail(users, users[i].email) == Some(i)
  {
  }

  lemma FindProductKeyed(products: seq<Product>, i: nat)
    requires ProductsKeyed(products) && i < |products|
    ensures FindProduct(products, products[i].id) == Some(i)
  {
  }

  /** Rewriting a row without touching its id or email keeps the keys. */
  lemma UpdateUserKeyed(users: seq<User>, nextId: int, i: nat, v: User)
    requires UsersKeyed(users, nextId) && i < |users|
    requires v.id == users[i].id && v.email == users[i].email
    ensures UsersKeyed(users[i := v], nextId)
  {
    var users' := users[i := v];
    assert forall j :: 0 <= j < |users'| ==> users'[j].id == users[j].id && users'[j].email == users[j].email;
  }

  /** A row appended under the next serial value keeps the keys. */
  lemma AppendTransactionKeyed(transactions: seq<Transaction>, nextId: int, t: Transaction)
    requires TransactionsKeyed(transactions, nextId) && t.id == nextId
    ensures TransactionsKeyed(transactions + [t], nextId + 1)
  {
  }
}
