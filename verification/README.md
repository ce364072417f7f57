# Top-up marketplace backend: a verified model

This project models the server of a digital top-up marketplace written in
TypeScript. Users hold a balance. They browse service providers grouped by
category (games, e-money, phone credit, …), buy products with that balance,
top the balance up, and read their own transaction history.

The model covers the handlers of `server/src/handlers`, the input schemas of
`server/src/schema.ts`, and the tables of `server/src/db/schema.ts`. The
database is a value `Db`: four tables held as sequences, plus the next values
of the two serial sequences the handlers draw ids from.

Each writing handler is a function from the database and the input to a `Step`. A
`Step` holds the result (a value, or one of the handlers' errors, with the
exact message text in `Common.Message`) and the new database. The handlers
that only read (sign-in, the profile, the history and the catalog queries)
take the tables they read and return a `Result` or a list. The four
handlers that write are also methods of the class `Handlers.Database`. Those
methods update the tables in place, in the order the source writes them, and
are proved to leave exactly the state and result of their functions.

Modules:

- `Common`:
  - `Option` and `Result`.
  - Money as integer cents (`Cents`).
  - The error values and their messages.
  - Number printing.
  - The generic filter behind the `select … where` scans that return many rows (lookups by id or email go through `DbSchema.FindUser`, `FindUserByEmail` and `FindProduct`).
- `Text`:
  - `toLowerCase` on ASCII letters.
  - JavaScript `trim` and its whitespace set.
  - Code-unit ordering of strings, as `Array.prototype.sort` uses it.
- `DbSchema`:
  - The two enums and the four row types.
  - The column defaults of inserts.
  - The keys of the tables (`Valid`): unique ids and the unique email, which the database enforces, and ids within the serial range, which is assumed of the starting state and kept by the handlers.
  - The lookups by id and by email.
- `ApiSchema`:
  - The handler inputs.
  - The validity conditions the zod schemas impose.
  - The parsing of the enum schemas.
- `Catalog`: `getServicesByCategory`, `getServiceProducts` and `getAllServiceCategories`.
- `History`: `getTransactionHistory`.
- `Ledger`:
  - `createTransaction` (a purchase) and `topUpBalance`.
  - The ledger invariant: every balance is the signed sum of its user's rows (`Reconciled`).
  - Balances stay non-negative (`Solvent`).
  - Repeated purchases.
- `Accounts`: `signUp`, `signIn`, `getUserProfile` and `updateUserProfile`.
- `Handlers`: the class `Database`, holding the four writing handlers.

Some behaviours of the code that the model keeps as they are:

- A purchase row is written with status `pending` (`server/src/handlers/create_transaction.ts:50`). Nothing in the modelled code moves it to `success`.
- Purchases carry no idempotency key. A repeated request repeats the debit, which `Ledger.RepeatedPurchases` shows.
- The top-up handler itself accepts any amount, zero included. Only the input schema asks for a positive one (`ApiSchema.ValidTopUpInput`).
- `reference_id` has no unique constraint (`server/src/db/schema.ts:69`). Two top-ups of one user in the same millisecond get the same reference (`Ledger.TopUpReferenceIdentifies`).
- The read and the writes of a purchase or top-up run without a database transaction. The model treats each handler call as one atomic step.

## Model

| member | source | states |
|---|---|---|
| Common.Filter | server/src/handlers/get_services_by_category.ts:9-15 | a `where` keeps exactly the rows that satisfy it, each as often as the table holds it, and no others |
| Common.DigitChar | server/src/handlers/top_up_balance.ts:46-47 | a digit prints as the character whose value it is |
| Common.NatToString | server/src/handlers/top_up_balance.ts:46-47 | a natural number prints as a non-empty string of decimal digits without a leading zero; 0 prints as `0` |
| Common.NatToStringValue | server/src/handlers/top_up_balance.ts:46-47 | reading the printed digits back gives the number |
| Common.IntToString | server/src/handlers/top_up_balance.ts:46 | an integer prints as digits, with a leading minus exactly when it is negative |
| Common.IntToStringValue | server/src/handlers/top_up_balance.ts:46 | an integer prints as the canonical numeral of its value, after a minus sign when negative |
| Common.DigitsValueBounds | server/src/handlers/top_up_balance.ts:46 | a numeral denotes a non-negative value, a positive one when it does not start with `0` |
| Common.CanonicalIsNatToString | server/src/handlers/top_up_balance.ts:46 | the printed form of n is the only digit string without a leading zero that denotes n, as a template literal prints it |
| Common.IntToStringInjective | server/src/handlers/top_up_balance.ts:46 | different integers print differently |
| Common.PairMatches | server/src/tests/top_up_balance.test.ts:121 | `prefix<a>_<b>` of two non-negative numbers matches `^prefix\d+_\d+$` |
| Common.PairInjective | server/src/handlers/top_up_balance.ts:46 | `prefix<a>_<b>` determines both numbers |
| Common.SplitAtUnderscore | server/src/handlers/sign_in.ts:38 | two strings with a common prefix and an underscore-free field before `_` agree on that field and the rest |
| Common.MessagesDistinct | server/src/handlers/create_transaction.ts:15-41 | the eight error messages (the two with an id for every id) are pairwise different, so the message identifies the error |
| Common.MessageExamples | server/src/tests/top_up_balance.test.ts:201 | the message for an unknown user 999 is "User with id 999 not found", and the profile message uses "ID" |
| Common.FormatAmount | server/src/handlers/top_up_balance.ts:47 | an amount prints as digits with a decimal point exactly when it has cents, at most two fraction digits and no trailing zero after the point; a negative amount gets a minus sign |
| Common.FormatAmountValue | server/src/handlers/top_up_balance.ts:47 | the printed whole part reads back as the whole units and the fraction digits as the cents |
| Common.FormatAmountExamples | server/src/tests/top_up_balance.test.ts:122 | 25000 prints as `25000`, 999.75 as `999.75` and 1000.50 as `1000.5` |
| Text.LowerChar | server/src/handlers/sign_up.ts:32 | an upper-case ASCII letter becomes the lower-case letter 32 code points above it; every other character is kept |
| Text.ToLower | server/src/handlers/sign_up.ts:32 | lowercasing keeps the length, maps each upper-case ASCII letter to its lower-case letter, leaves no upper-case ASCII letter and changes no other character |
| Text.ToLowerIdempotent | server/src/handlers/sign_up.ts:46 | a lowercased email lowercases to itself, so the stored email is a fixed point of the duplicate check |
| Text.TrimIsEmptyIff | server/src/handlers/sign_in.ts:26 | `trim()` gives the empty string exactly when every character is JavaScript whitespace |
| Text.LexLessTransitive | server/src/handlers/get_all_service_categories.ts:17 | the default sort order is transitive |
| Text.LexLessTotal | server/src/handlers/get_all_service_categories.ts:17 | of two different strings one sorts before the other |
| Text.LexLessIrreflexive | server/src/handlers/get_all_service_categories.ts:17 | no string sorts before itself |
| Text.LexLessAsymmetric | server/src/handlers/get_all_service_categories.ts:17 | two strings never sort before each other |
| DbSchema.CategoriesEnumerated | server/src/db/schema.ts:5-16 | the service category enum has exactly ten members with ten distinct labels |
| DbSchema.StatusesEnumerated | server/src/db/schema.ts:18-24 | the transaction status enum has exactly the five members, with distinct labels |
| DbSchema.InsertUser | server/src/db/schema.ts:27-37 | an inserted user gets the serial id and the clock; balance defaults to 0 and is_verified to false |
| DbSchema.InsertProvider | server/src/db/schema.ts:40-47 | an inserted provider is active unless the insert says otherwise |
| DbSchema.InsertProduct | server/src/db/schema.ts:50-59 | an inserted product is active unless the insert says otherwise and keeps the given price |
| DbSchema.InsertTransaction | server/src/db/schema.ts:62-73 | an inserted transaction defaults to pending and keeps the given reference and notes (both nullable) |
| DbSchema.FindUser | server/src/handlers/get_user_profile.ts:9-18 | the lookup by id returns the first row with that id, or nothing exactly when no row has it |
| DbSchema.FindUserByEmail | server/src/handlers/sign_in.ts:9-18 | the lookup by email is an exact match: the first row with exactly that email, or nothing exactly when none has it |
| DbSchema.FindProduct | server/src/handlers/create_transaction.ts:9-18 | the product lookup returns the first row with that id, or nothing exactly when none has it |
| DbSchema.FindUserKeyed | server/src/db/schema.ts:28 | under the serial primary key the row found by id is the only one with that id |
| DbSchema.FindUserByEmailKeyed | server/src/db/schema.ts:29 | under the unique email the row found by email is the only one with that email |
| DbSchema.FindProductKeyed | server/src/db/schema.ts:51 | under the primary key the product found by id is the only one with that id |
| DbSchema.UpdateUserKeyed | server/src/db/schema.ts:28-29 | rewriting a user row without changing its id or email keeps both keys, the id and the unique email |
| DbSchema.AppendTransactionKeyed | server/src/db/schema.ts:63 | a row inserted with the next serial value keeps the transaction ids unique |
| ApiSchema.ParseCategory | server/src/schema.ts:36-47 | a category the schema accepts has exactly the label given |
| ApiSchema.ParseCategoryName | server/src/schema.ts:36-47 | every one of the ten labels is accepted, as the category it names |
| ApiSchema.ParseCategoryRejects | server/src/schema.ts:36-47 | any other string is rejected |
| ApiSchema.ParseStatus | server/src/schema.ts:78-84 | a status the schema accepts has exactly the label given |
| ApiSchema.ParseStatusName | server/src/schema.ts:78-84 | each of pending, processing, success, failed and cancelled is accepted |
| ApiSchema.ParseStatusRejects | server/src/schema.ts:78-84 | any other string is rejected |
| ApiSchema.SignInSchemaIgnoresPassword | server/src/schema.ts:28-31 | the sign-in schema accepts an input on its email alone: any password, the empty one included, passes |
| Catalog.ServicesByCategory | server/src/handlers/get_services_by_category.ts:9-15 | exactly the active providers of the category are returned, each as stored: none of another category, none inactive, none missing |
| Catalog.NoServicesListed | server/src/handlers/get_services_by_category.ts:9-15 | a category without an active provider gives an empty list |
| Catalog.ServiceProducts | server/src/handlers/get_service_products.ts:6-20 | exactly the active products of the provider are returned, each row (and so its price) as stored |
| Catalog.NoProductsListed | server/src/handlers/get_service_products.ts:6-20 | a provider id no product names gives an empty list, not an error |
| Catalog.ActiveCategories | server/src/handlers/get_all_service_categories.ts:9-12 | a category is listed exactly when some active provider has it, even if others in it are inactive |
| Catalog.Distinct | server/src/handlers/get_all_service_categories.ts:10 | `selectDistinct` keeps every category present and lists none twice |
| Catalog.NameLessTotal | server/src/handlers/get_all_service_categories.ts:17 | two different categories are always ordered by their labels |
| Catalog.NameLessTransitive | server/src/handlers/get_all_service_categories.ts:17 | the order on category labels is transitive |
| Catalog.StrictlySortedNoDuplicates | server/src/handlers/get_all_service_categories.ts:17 | a strictly ascending list holds no category twice |
| Catalog.InsertByName | server/src/handlers/get_all_service_categories.ts:17 | inserting a new category into an ascending list keeps it ascending and adds exactly that category |
| Catalog.SortByName | server/src/handlers/get_all_service_categories.ts:17 | sorting distinct categories gives a strictly ascending permutation of them |
| Catalog.AllServiceCategories | server/src/handlers/get_all_service_categories.ts:6-17 | the result lists exactly the categories of active providers, once each, in ascending order of label |
| Catalog.SortedHeadsAgree | server/src/handlers/get_all_service_categories.ts:17 | two ascending listings of the same categories start with the same category |
| Catalog.SortedListingUnique | server/src/handlers/get_all_service_categories.ts:10-17 | two ascending listings of the same categories are equal, so the order of the distinct query does not matter |
| Catalog.NoProvidersNoCategories | server/src/handlers/get_all_service_categories.ts:9-17 | with no providers the result is empty |
| History.EffectiveLimit | server/src/handlers/get_transaction_history.ts:9 | the page size is the given limit, or 10 when it is absent or zero |
| History.EffectiveOffset | server/src/handlers/get_transaction_history.ts:10 | the offset is the given one, or 0 when absent |
| History.PagingDefaults | server/src/schema.ts:139-143 | after the input schema the page size is at least 1 and the offset at least 0: the given values, or 10 and 0 |
| History.OfUser | server/src/handlers/get_transaction_history.ts:15 | exactly the rows of the user are kept, as often as stored |
| History.InsertNewest | server/src/handlers/get_transaction_history.ts:16 | inserting into a newest-first list keeps it newest first and adds exactly that row |
| History.SortNewestFirst | server/src/handlers/get_transaction_history.ts:16 | ordering by `created_at desc` gives a permutation that is newest first |
| History.Page | server/src/handlers/get_transaction_history.ts:17-18 | `limit`/`offset` give at most `limit` rows, exactly the ones starting `offset` rows in |
| History.UserHistory | server/src/handlers/get_transaction_history.ts:13-16 | all of the user's rows, with their multiplicities, newest first |
| History.PageNewestFirst | server/src/handlers/get_transaction_history.ts:16-18 | a page of a newest-first list is newest first |
| History.PageWithin | server/src/handlers/get_transaction_history.ts:17-18 | a page holds only rows of the list it is cut from |
| History.TransactionHistory | server/src/handlers/get_transaction_history.ts:6-26 | every row returned is a stored row (amount unchanged) of the requested user; the rows are newest first, at most `limit` of them, forming the window of the user's sorted rows that starts at `offset` |
| History.DefaultPage | server/src/handlers/get_transaction_history.ts:9-10 | without paging arguments the first ten of the user's sorted rows are returned, or all when fewer |
| History.FirstPageComplete | server/src/handlers/get_transaction_history.ts:13-18 | a first page large enough holds all of the user's rows |
| History.NoTransactionsNoHistory | server/src/handlers/get_transaction_history.ts:13-20 | a user without transactions gets an empty list, whatever the page |
| History.PagesJoin | server/src/handlers/get_transaction_history.ts:17-18 | two consecutive pages cut from the same sorted list join up: together they are the combined window, with no row of that list skipped or repeated |
| History.PageAfterNewRowRepeats | server/src/handlers/get_transaction_history.ts:13-18 | when a newer row is added between two page requests, the second page starts with the last row of the first |
| History.InsertOldest | server/src/handlers/get_transaction_history.ts:16 | a row older than every row of a newest-first list goes at its end |
| History.ChronologicalNewestFirst | server/src/handlers/get_transaction_history.ts:16 | when timestamps strictly increase along the table, the history is the table in reverse |
| Ledger.NotesOrNull | server/src/handlers/create_transaction.ts:53 | the stored notes are the given ones, or null when they are null or empty |
| Ledger.Purchase | server/src/handlers/create_transaction.ts:6-79 | every failure leaves the database as it was; no purchase touches the providers, the products or the user serial |
| Ledger.PurchaseOutcome | server/src/handlers/create_transaction.ts:9-42 | the four failures happen each exactly when its check fails, in the order product missing, product inactive, user missing, balance short; a purchase succeeds exactly when the product is active and the balance covers its price |
| Ledger.PurchaseRecorded | server/src/handlers/create_transaction.ts:45-68 | a success appends exactly one row under the next serial: pending, with the current price, the target, the notes (null when empty) and no reference; the only user row that changes is the buyer's, debited by the price |
| Ledger.PurchaseKeepsKeys | server/src/handlers/create_transaction.ts:45-68 | a purchase keeps the id keys and the unique emails |
| Ledger.PurchaseKeepsSolvent | server/src/handlers/create_transaction.ts:40-68 | a purchase never drives a balance below zero |
| Ledger.PurchaseKeepsInvariants | server/src/handlers/create_transaction.ts:6-79 | a purchase keeps the keys, the ledger invariant and non-negative balances |
| Ledger.ProductChecksComeFirst | server/src/handlers/create_transaction.ts:9-22 | a missing or inactive product decides the outcome whatever the users and balances |
| Ledger.TopUpTarget | server/src/handlers/top_up_balance.ts:45 | the top-up target is the phone number, or the email when the phone is null or empty |
| Ledger.TopUpReferenceFormat | server/src/handlers/top_up_balance.ts:46 | with a non-negative clock and id the reference matches `^TOPUP_\d+_\d+$` |
| Ledger.TopUpReferenceIdentifies | server/src/handlers/top_up_balance.ts:46 | two top-ups share a reference exactly when they are for the same user in the same millisecond |
| Ledger.TopUpNotesExamples | server/src/tests/top_up_balance.test.ts:122 | a top-up of 25000 is noted `Balance top-up of 25000`, one of 999.75 `Balance top-up of 999.75` |
| Ledger.TopUpRow | server/src/handlers/top_up_balance.ts:39-48 | the row a top-up writes is a successful credit of the amount to the user under the given serial |
| Ledger.TopUp | server/src/handlers/top_up_balance.ts:6-60 | a top-up fails, with the id in the message, exactly when no user has the id, and then changes nothing; it never touches the providers, the products or the user serial |
| Ledger.TopUpRecorded | server/src/handlers/top_up_balance.ts:21-48 | on success the stored user gains the amount and a new `updated_at`, nothing else of it or of any other user changes, exactly that row is returned, and one successful row is appended under the next serial with product id 0, the amount, the target, the `TOPUP_` reference and the notes |
| Ledger.TopUpKeepsKeys | server/src/handlers/top_up_balance.ts:21-48 | a top-up keeps the id keys and the unique emails |
| Ledger.TopUpKeepsSolvent | server/src/handlers/top_up_balance.ts:21-33 | a top-up of a positive amount never makes a balance negative |
| Ledger.TopUpKeepsInvariants | server/src/handlers/top_up_balance.ts:6-60 | a top-up keeps the keys and the ledger invariant, and with a positive amount non-negative balances |
| Ledger.TopUpIncreasesBalance | server/src/handlers/top_up_balance.ts:21-22 | a top-up that passes the input schema strictly increases the balance |
| Ledger.NetAppend | server/src/handlers/create_transaction.ts:45-56 | appending a row changes only its own user's net, by its signed amount |
| Ledger.NetOfStranger | server/src/handlers/sign_up.ts:44-52 | a user without rows has a net of zero |
| Ledger.RecordKeepsReconciled | server/src/handlers/create_transaction.ts:45-68 | recording one row for an existing user and moving that user's balance by its signed amount keeps every balance equal to the signed sum of its user's rows |
| Ledger.PurchaseReconciled | server/src/handlers/create_transaction.ts:45-68 | a purchase keeps every balance equal to the signed sum of its user's rows |
| Ledger.TopUpReconciled | server/src/handlers/top_up_balance.ts:21-48 | a top-up keeps every balance equal to the signed sum of its user's rows |
| Ledger.FindUserSameIds | server/src/handlers/create_transaction.ts:61-68 | rewriting users without changing ids leaves every lookup by id as it was |
| Ledger.PurchaseGoesThrough | server/src/handlers/create_transaction.ts:40-68 | a purchase the balance covers (equality included) succeeds, debits the price and adds one row |
| Ledger.PurchaseRefused | server/src/handlers/create_transaction.ts:40-42 | a purchase the balance does not cover changes nothing |
| Ledger.RepeatedPurchases | server/src/handlers/create_transaction.ts:40-68 | repeated purchases each succeed exactly while the balance covers the price, adding one row and one debit per success |
| Ledger.NoPurchasesAfterRefusal | server/src/handlers/create_transaction.ts:40-42 | once a purchase is refused, repeating it any number of times changes nothing |
| Ledger.PaidPurchasesThenRepeat | server/src/handlers/create_transaction.ts:40-68 | when the balance covers the price, n ≥ 1 purchases in a row leave the balance and add the rows that `BalanceAfter` and `Paid` count |
| Ledger.PaidTimes | server/src/handlers/create_transaction.ts:40-42 | a balance covering the price exactly k times over pays min(n, k) of n attempts and ends at balance − min(n, k)·price |
| Ledger.TwoPurchasesOf25000 | server/src/handlers/create_transaction.ts:40-68 | two purchases of 25000 from 100000 leave 50000 and two new rows; only four of five would go through |
| Accounts.SignInTokenFormat | server/src/tests/sign_in.test.ts:50 | for a serial id and a non-negative clock the token matches `^jwt_token_\d+_\d+$` |
| Accounts.SignInTokenIdentifies | server/src/handlers/sign_in.ts:38 | a token names exactly one user id and one sign-in time |
| Accounts.SignIn | server/src/handlers/sign_in.ts:6-48 | sign-in fails with "Invalid email or password" exactly when no user has exactly that email or the stored hash is blank; otherwise it returns the stored user and `jwt_token_<id>_<time>` |
| Accounts.SignInIgnoresPassword | server/src/handlers/sign_in.ts:20-28 | the password given plays no part in the outcome |
| Accounts.SignInFindsStoredUser | server/src/handlers/sign_in.ts:9-18 | under unique emails, signing in with a stored email returns that very user |
| Accounts.UserProfile | server/src/handlers/get_user_profile.ts:6-29 | the profile is a stored user with that id; it fails with "User with ID N not found" exactly when no row has the id |
| Accounts.NoProfileBelowOne | server/src/handlers/get_user_profile.ts:14-16 | a zero or negative id is never found |
| Accounts.ProfileIsStoredRow | server/src/handlers/get_user_profile.ts:18-24 | under the primary key the profile is the stored row itself, its balance included |
| Accounts.ApplyProfileUpdate | server/src/handlers/update_user_profile.ts:9-19 | `updated_at` is always set; `full_name` changes only when given; `phone_number` changes whenever given, to null too; no other field changes |
| Accounts.UpdateProfile | server/src/handlers/update_user_profile.ts:6-42 | a missing user fails with "User with id N not found" and changes nothing; otherwise only that user's row is rewritten and returned; keys are kept |
| Accounts.EmptyUpdateTouchesOnlyTimestamp | server/src/handlers/update_user_profile.ts:9-11 | an update naming no field only moves `updated_at` |
| Accounts.UpdateProfileReconciled | server/src/handlers/update_user_profile.ts:9-26 | profile updates keep every balance and the ledger invariant |
| Accounts.PasswordHash | server/src/handlers/sign_up.ts:40-41 | the stored hash starts with the salt and a colon, and the rest is the digest of password and salt |
| Accounts.ValidSignUpStoresNamedUser | server/src/schema.ts:19-24 | an account created from an input the sign-up schema accepts has a non-empty name, the lowercased email and a hash that is not blank |
| Accounts.PasswordHashNotBlank | server/src/handlers/sign_up.ts:40-41 | a stored `salt:digest` hash is never blank, so a new account can always sign in |
| Accounts.Register | server/src/handlers/sign_up.ts:27-75 | sign-up fails with "already exists" and changes nothing exactly when a user has the lowercased email; otherwise exactly one user is added, with the serial id, the lowercased email, the `salt:digest` hash, the given name and phone, balance 0 and not verified; unique emails are kept |
| Accounts.DuplicateSignUpRefused | server/src/handlers/sign_up.ts:30-37 | once an email is registered, any address lowercasing to it is refused, so duplicates are case-insensitive |
| Accounts.SignInAfterSignUp | server/src/handlers/sign_up.ts:44-54 | a new account signs in with its lowercased email and gets the stored user back |
| Accounts.RegisterReconciled | server/src/handlers/sign_up.ts:44-52 | sign-up keeps the ledger invariant: the new user has no rows and balance 0 |
| Handlers.Database.constructor | server/src/db/schema.ts:27-73 | a fresh database is empty, keyed, reconciled and solvent |
| Handlers.Database.CreateTransaction | server/src/handlers/create_transaction.ts:6-79 | the in-place purchase returns and leaves exactly what `Ledger.Purchase` describes, and keeps the keys, the ledger invariant and non-negative balances |
| Handlers.Database.TopUpBalance | server/src/handlers/top_up_balance.ts:6-60 | the in-place top-up returns and leaves exactly what `Ledger.TopUp` describes, and keeps the keys and the ledger invariant, and with a positive amount non-negative balances |
| Handlers.Database.UpdateUserProfile | server/src/handlers/update_user_profile.ts:6-42 | the field-by-field update returns and leaves exactly what `Accounts.UpdateProfile` describes, and keeps the keys and the ledger invariant |
| Handlers.Database.SignUp | server/src/handlers/sign_up.ts:27-75 | the in-place sign-up returns and leaves exactly what `Accounts.Register` describes, and keeps the keys and the ledger invariant |

## Left out

- Money is integer cents. The `parseFloat` / `toString` round trips of balances and prices and JavaScript floating-point arithmetic are not modelled. Neither is the `numeric(15,2)` column bound: amounts are unbounded.
- Ids are unbounded integers. The 32-bit range of `serial` and `integer` columns is not modelled.
- Time is an argument (`now`) of every handler that reads the clock. `Date.now()` and `new Date()` are not modelled.
- The random salt, the SHA-256 digest and the signed sign-up token are opaque arguments. `Buffer`, base64url and JSON encoding are not modelled.
- The zod `.email()` format check is an uninterpreted predicate (`isEmail`), because it is a library regular expression.
- `Text.ToLower` lowercases ASCII letters only. Unicode case mapping is not modelled. String lengths count characters, not UTF-16 code units.
- Concurrency, interleavings and partial failure are not modelled. Each handler call is one atomic step. The source's own order of writes (insert, then debit) is kept in `Handlers.Database.CreateTransaction`.
- The order in which the database returns rows of an unordered `select` is not modelled. The model returns table order. Ties in `created_at` keep table order (a stable sort) where the database leaves them unspecified.
- History.PagesJoin: it is about two pages of one list. Offset paging across separate requests is not promised to be gap- and repeat-free. A row added between requests shifts later pages (`History.PageAfterNewRowRepeats`), and the database may order `created_at` ties differently from one query to the next, so a page can skip or repeat rows.
- `server/src/index.ts` (the tRPC router, HTTP server, CORS and environment configuration) and the drizzle query builder are not part of this model. `console.error` logging and rethrowing are not part of this model.
- Idempotency keys, refunds and status transitions after creation are not modelled, because no code implements them.
- Ledger.TopUpKeepsSolvent: it assumes a positive amount. This is the input schema's condition, not one the handler checks.
- DbSchema.Valid: the bounds `1 <= id < next serial` (and product and provider ids from 1) are assumed of the starting database, not enforced by it. A row inserted with an explicit id outside them is not modelled. In particular, a product with id 0 would make a purchase row (`server/src/handlers/create_transaction.ts:48`) look exactly like a top-up row (`server/src/handlers/top_up_balance.ts:42`), and `Ledger.Reconciled` would count it as a credit. `Valid` excludes that product by assumption.
- The validity predicates of `ApiSchema` (`ValidSignUpInput`, `ValidSignInInput`, `ValidTopUpInput`, `ValidHistoryInput`) carry no contract of their own. What they guarantee is stated by the lemmas that assume them: `Accounts.ValidSignUpStoresNamedUser`, `ApiSchema.SignInSchemaIgnoresPassword`, `Ledger.TopUpIncreasesBalance`, `Ledger.TopUpKeepsSolvent` and `History.PagingDefaults`.
