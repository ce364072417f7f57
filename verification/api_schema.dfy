/** The handlers' inputs and the validity conditions the input schemas
    impose on them before a handler runs. */
module ApiSchema {
  import opened Common
  import opened DbSchema

  datatype SignUpInput = SignUpInput(
    email: string, password: string, fullName: string, phoneNumber: Option<string>)

  datatype SignInInput = SignInInput(email: string, password: string)

  datatype CreateTransactionInput = CreateTransactionInput(
    userId: int, productId: int, targetNumber: string, notes: Option<string>)

  /** `fullName` and `phoneNumber` may be absent (`None`); a present phone
      number may itself be null (`Some(None)`). */
  datatype UpdateProfileInput = UpdateProfileInput(
    userId: int, fullName: Option<string>, phoneNumber: Option<Option<string>>)

  datatype TopUpInput = TopUpInput(userId: int, amount: Cents)

  datatype HistoryInput = HistoryInput(userId: int, limit: Option<int>, offset: Option<int>)

  /** The email format check is a library regular expression; it is a
      parameter of the conditions that use it. */
  predicate ValidSignUpInput(input: SignUpInput, isEmail: string -> bool)
  {
    isEmail(input.email) && |input.password| >= 8 && |input.fullName| >= 1
  }

  predicate ValidSignInInput(input: SignInInput, isEmail: string -> bool)
  {
    isEmail(input.email)
  }

  /** The sign-in schema puts no bound on the password: whether an input
      is accepted depends on its email alone. */
  lemma SignInSchemaIgnoresPassword(input: SignInInput, password: string, isEmail: string -> bool)
    ensures ValidSignInInput(input.(password := password), isEmail) == isEmail(input.email)
  {
  }

  predicate ValidTopUpInput(input: TopUpInput)
  {
    input.amount > 0
  }

  predicate ValidHistoryInput(input: HistoryInput)
  {
    && (input.limit.Some? ==> input.limit.value > 0)
    && (input.offset.Some? ==> input.offset.value >= 0)
  }

  /** The category enum schema: accepts exactly the ten labels. */
  function ParseCategory(s: string): (r: Option<Category>)
    ensures r.Some? ==> CategoryName(r.value) == s
  {
    if s == "games" then Some(Games)
    else if s == "e_money" then Some(EMoney)
    else if s == "pulsa" then Some(Pulsa)
    else if s == "data" then Some(Data)
    else if s == "tlp_sms" then Some(TlpSms)
    else if s == "masa_aktif" then Some(MasaAktif)
    else if s == "pln" then Some(Pln)
    else if s == "voucher" then Some(Voucher)
    else if s == "streaming" then Some(Streaming)
    else if s == "pascabayar" then Some(Pascabayar)
    else None
  }

  /** Every label is accepted, as the category it names. */
  lemma ParseCategoryName(c: Category)
    ensures ParseCategory(CategoryName(c)) == Some(c)
  {
  }

  /** Anything that is not one of the ten labels is rejected. */
  lemma ParseCategoryRejects(s: string)
    requires forall c: Category :: CategoryName(c) != s
    ensures ParseCategory(s) == None
  {
  }

  /** The status enum schema: accepts exactly the five labels. */
  function ParseStatus(s: string): (r: Option<TransactionStatus>)
    ensures r.Some? ==> StatusName(r.value) == s
  {
    if s == "pending" then Some(Pending)
    else if s == "processing" then Some(Processing)
    else if s == "success" then Some(Success)
    else if s == "failed" then Some(Failed)
    else if s == "cancelled" then Some(Cancelled)
    else None
  }

  lemma ParseStatusName(t: TransactionStatus)
    ensures ParseStatus(StatusName(t)) == Some(t)
  {
  }

  lemma ParseStatusRejects(s: string)
    requires forall t: TransactionStatus :: StatusName(t) != s
    ensures ParseStatus(s) == None
  {
  }
}
