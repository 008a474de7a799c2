# Personal ledger backend, modelled in Dafny

This project models the core of a small bookkeeping backend. Each user keeps
**accounts**, one per counterparty. Against each account the user records
**entries**: money `given` to the counterparty, or money `receive`d from it.
Every account caches a `balance`. Each entry handler adjusts that cached
balance step by step. `getAccountBalance` recomputes it from scratch.

The model has these parts:

- `Common`: optional request fields and the status-plus-payload reply.
- `Text`: the `trim` setter and `toLowerCase`, with their algebra.
- `Sorting`: the `sort` stages of the store's queries.
- `AccountModel` and `EntryModel`: the two schemas. They hold the record
  types, the defaults, the phone validator, the `type` enum, and the
  documents the handlers build.
- `BalanceEngine`: the signed-delta rule. `given` adds the amount, `receive`
  subtracts it, and any other type string adds nothing. It also holds the
  from-scratch balance, as a sum over a set of entries, and the loop of
  `getAccountBalance`.
- `Bookkeeping`: class `Ledger` owns the account and entry collections. It
  has one method per state-changing handler. Its invariant `Consistent` says
  four things:
  - every account's cached balance equals the recomputed one;
  - every entry belongs to an existing account of the same owner;
  - amounts are non-negative;
  - every id in use is below the next id.
- `Queries`: the read-only handlers, as functions of the two collections.
  They are owner-filtered and sorted, and join entries with their accounts.
- `UserModel`: the user schema and its canonical lowercase key. It has the
  pre-save hook on class `UserDocument`, the pre-`findOneAndUpdate` hook on
  update objects, and class `UserCollection` with its two unique indexes.
- `Scenarios`: request sequences and what they lead to.

Each handler runs as one atomic step. The caller's id arrives already
resolved as `owner`. The clock arrives as the parameter `now`. Store ids are
natural numbers drawn from one counter, so a new id is never in use.
Amounts and timestamps are integers.

Behaviours of the code that the model keeps:

- The duplicate-name check of `createAccount` also matches soft-deleted
  accounts (controllers/accountController.js:19-22), so a soft-deleted
  account's name stays taken for its owner.
- `updateAccount`, `deleteAccount`, `updateEntry`, `deleteEntry`,
  `getEntryById` and `getAllEntries` never look at `isActive`, so a
  soft-deleted account and its entries stay reachable through them.
- A malformed phone number makes `save` throw, so `createAccount` answers
  500, not 400. An update never runs the validator at all, so any phone is
  stored. The match validator lets the empty string through.
- `updateEntry` stores a new `type` without checking the enum. A stored
  type outside the enum then moves no balance.

JavaScript truthiness is kept:

- In `createEntry`, an empty `type` and an amount of 0 count as missing.
- In `updateAccount`, an empty name keeps the old one.
- In `updateEntry`, an empty `type` keeps the old one, while any supplied
  amount, 0 included, replaces the old one.

## Model

| member | source | states |
|---|---|---|
| Text.TrimmedExactly | models/accountModel.js:10 | What the `trim` setter stores has no leading or trailing JavaScript white space or line terminator (the ASCII ones, no-break space, the byte order mark, every space separator, U+2028 and U+2029). A string is left unchanged by it exactly when it is already trimmed. |
| Text.TrimIdempotent | models/entryModel.js:25 | Trimming twice is trimming once. |
| Text.Lower | models/userModel.js:33 | ASCII `toLowerCase` keeps the length and lowercases each character on its own. |
| Text.LowerIdempotent | models/userModel.js:33 | Lowercasing a lowercased name changes nothing. |
| Text.LowerTrimCommute | models/userModel.js:14-20 | Trimming then lowercasing gives the same key as lowercasing then trimming. |
| Text.CaseVariantsShareLower | models/userModel.js:49 | Two names that differ only in case have the same lowercase key. |
| Sorting.Insert | controllers/entryController.js:100 | Inserting into a sorted sequence keeps it sorted and adds exactly that element. |
| Sorting.PermutationOfSet | controllers/entryController.js:334-335 | A sequence that is a permutation of a set lists every member once and nothing else. |
| Sorting.SortSet | controllers/entryController.js:279 | A result set is put in key order and is a permutation of the set. |
| AccountModel.ValidatePhone | models/accountModel.js:8-12 | A phone is saved iff its trimmed value is empty or exactly ten ASCII digits, and what is saved is exactly the trimmed value. |
| AccountModel.Amended | controllers/accountController.js:152-159 | A supplied non-empty name replaces the old one, and otherwise the old name stays. A supplied phone is stored trimmed, and otherwise the old phone stays. Balance, owner, `isActive` and creation time never change. |
| AccountModel.PhoneExamples | models/accountModel.js:10-11 | "9876543210" is accepted as is, the same number behind an ideographic space is trimmed and accepted, and "12345" is refused. |
| EntryModel.NewEntry | controllers/entryController.js:40-47 | The created entry holds the request's account and type, the absolute value of the amount (so it is positive when the amount is non-zero), the supplied date or else now, the trimmed reason or else the empty string, and the caller as owner. |
| EntryModel.Revised | controllers/entryController.js:149-158 | A supplied non-empty type replaces the stored one, and an absent or empty type keeps it. A supplied amount, 0 included, replaces the stored one, made absolute, and an absent amount keeps it. A supplied date replaces the stored one, and otherwise it stays. A supplied reason is stored trimmed, and otherwise it stays. Each field is kept or replaced on its own. Account, owner and creation time never change, and amounts stay non-negative. |
| EntryModel.MissingRequired | controllers/entryController.js:9-15 | The falsy test on `accountId`, `type` and `amount`: an absent field, an empty type or an amount of 0 counts as missing. |
| EntryModel.EntryRequestRejected | controllers/entryController.js:9-23 | Both 400 tests of `createEntry`: a missing field, or a type other than exactly `given` or `receive`. |
| AccountModel.NewAccount | models/accountModel.js:13-25 | A new account takes the given name, phone and owner, with the schema defaults balance 0 and `isActive` true. |
| BalanceEngine.Delta | controllers/entryController.js:53-57 | Only `given` and `receive` move a balance, each by the amount. For a positive amount, the balance rises exactly for `given` and falls exactly for `receive`. Any other type moves nothing. |
| BalanceEngine.Balance | controllers/accountController.js:233-242 | The from-scratch balance: the sum of the deltas of every entry that names the account, whoever recorded it. |
| Bookkeeping.Consistent | controllers/entryController.js:40-59 | The ledger invariant: every account's cached balance equals its from-scratch balance, every entry names an existing account of the same owner and has a non-negative amount, every name is non-empty, and every id is below the next one. |
| UserModel.PreFindOneAndUpdate | models/userModel.js:39-46 | The update hook: a truthy `username` in the update also sets `usernameLower` to its lowercase, and otherwise the update is left as it is. |
| UserModel.ApplyUpdate | models/userModel.js:7-20 | An update applied to a stored user: each supplied field replaces the stored one, with the `trim` setters applied to the name and the key. |
| BalanceEngine.SignedSumSplits | controllers/accountController.js:236-242 | The signed sum over any set of entries is the sum of `given` amounts minus the sum of `receive` amounts. |
| BalanceEngine.BalanceIsGivenMinusReceived | controllers/accountController.js:233-242 | An account's recomputed balance is given minus received over all its entries, whoever recorded them. |
| BalanceEngine.BalanceWithoutEntries | models/accountModel.js:13-16 | An account no entry refers to has balance 0, the schema default. |
| BalanceEngine.BalanceAfterInsert | controllers/entryController.js:49-59 | Saving an entry moves its own account's recomputed balance by its delta and no other account's. |
| BalanceEngine.BalanceAfterRemove | controllers/entryController.js:210-221 | Deleting an entry takes its delta out of its account's recomputed balance and no other account's. |
| BalanceEngine.BalanceAfterReplace | controllers/entryController.js:141-170 | Rewriting an entry replaces its old delta by its new one in its account's recomputed balance. |
| BalanceEngine.ApplyDelta | controllers/entryController.js:52-57 | The balance after the `given`/`receive` branches is the old balance plus the delta. Reversing that delta gives the old balance back. |
| BalanceEngine.ReverseDelta | controllers/entryController.js:141-146 | The balance after the reversing branches is the old balance minus the delta. Applying the delta again restores it. |
| BalanceEngine.RecomputeBalance | controllers/accountController.js:233-242 | The `forEach` loop, in any order, computes exactly the from-scratch balance of the account. |
| Bookkeeping.ConsistentAfterOpenAccount | controllers/accountController.js:32-38 | A fresh account with balance 0 keeps the ledger consistent. |
| Bookkeeping.ConsistentAfterAccountEdit | controllers/accountController.js:152-196 | A rename, a phone change or a soft delete keeps the ledger consistent. |
| Bookkeeping.ConsistentAfterCreateEntry | controllers/entryController.js:40-59 | Saving an owner's entry and adding its delta to the account keeps cached and recomputed balances equal. |
| Bookkeeping.ConsistentAfterUpdateEntry | controllers/entryController.js:141-170 | Reverse-then-reapply keeps cached and recomputed balances equal, even for a type outside the enum. |
| Bookkeeping.ConsistentAfterDeleteEntry | controllers/entryController.js:207-221 | Removing an entry and reversing its delta keeps cached and recomputed balances equal. |
| Bookkeeping.Ledger.CreateAccount | controllers/accountController.js:6-54 | Returns 400 iff the name is missing or empty, or the owner already has an account of that name, active or not. Returns 500 iff otherwise the phone fails validation. Returns 201 iff otherwise, and then a fresh id maps to the account with balance 0, `isActive` true and the trimmed phone. Otherwise nothing changes. Consistency is kept. |
| Bookkeeping.Ledger.UpdateAccount | controllers/accountController.js:134-175 | Returns 404 iff the account is not the caller's, active or not, and then nothing changes. Otherwise that one account is amended and returned. |
| Bookkeeping.Ledger.DeleteAccount | controllers/accountController.js:178-211 | Returns 404 iff the account is not the caller's. Otherwise only its `isActive` is cleared; its entries and balance stay. |
| Bookkeeping.Ledger.GetAccountBalance | controllers/accountController.js:214-261 | Returns 404 iff the account is not active and the caller's. Otherwise it returns the from-scratch balance, which equals the cached one, so the write-back changes nothing and a second call returns the same value. |
| Bookkeeping.Ledger.CreateEntry | controllers/entryController.js:5-75 | Returns 400 iff a field is missing or falsy (an amount of 0 included) or the type is outside the enum. Returns 404 iff otherwise the account is not active and the caller's. In both cases nothing changes. Returns 201 iff otherwise: a fresh id maps to the new entry and only that account's balance moves, by the entry's delta. |
| Bookkeeping.Ledger.UpdateEntry | controllers/entryController.js:119-186 | Returns 404 iff the entry is not the caller's. Otherwise the entry is revised, and its account's balance becomes old − delta(stored) + delta(effective type and amount). |
| Bookkeeping.Ledger.DeleteEntry | controllers/entryController.js:189-236 | Returns 404 iff the entry is not the caller's. Otherwise the entry is removed and its delta is taken out of its account's balance. |
| Queries.AccountById | controllers/accountController.js:99-131 | Returns 200 iff the account is active and the caller's, and then returns that stored account under its id. Otherwise it returns 404. |
| Queries.LastEntryOf | controllers/accountController.js:67-80 | `lastEntry` is absent iff no entry refers to the account. Otherwise it is the projection of an entry of that account with the greatest (date, createdAt). |
| Queries.AccountList | controllers/accountController.js:57-96 | Lists exactly the caller's active accounts, each once, newest first, each with its `lastEntry`. |
| Queries.EntriesByDateRange | controllers/entryController.js:298-351 | Returns 404 iff the account is not active and the caller's. Otherwise it lists exactly the caller's entries of that account within each bound given, each once, in ascending (date, createdAt). |
| Queries.EntriesByAccount | controllers/entryController.js:78-116 | Returns 404 iff the account is not active and the caller's. Otherwise it lists exactly the caller's entries of that account, each once, oldest first. |
| Queries.AllEntries | controllers/entryController.js:273-295 | Lists exactly the caller's entries, on soft-deleted accounts too, each once and latest first, each joined with its account's name and phone. |
| Queries.EntryById | controllers/entryController.js:239-270 | Returns 200 iff the entry is the caller's, with that entry. Otherwise it returns 404. |
| Queries.EntryByIdAgreesWithAllEntries | controllers/entryController.js:243-246 | `getEntryById` finds exactly the entries `getAllEntries` lists, with the same populated row. |
| Queries.RangeNarrowsAccountQuery | controllers/entryController.js:318-332 | With no bounds the range query is the per-account query. With bounds it returns a subset of it. |
| Queries.SoftDeleteHidesAccountOnly | controllers/accountController.js:195-196 | A soft-deleted account leaves the account list, but the dashboard still lists its entries with the same join. |
| Queries.JoinsResolve | controllers/entryController.js:278 | In a consistent ledger every populated entry finds its account, and that account is the caller's. |
| UserModel.CanonicalKey | models/userModel.js:31-36 | The key the pre-save hook stores for a trimmed name is its lowercase, and it is trimmed. |
| UserModel.RegistryAfterStore | models/userModel.js:7-20 | Storing a user whose keys are free and in step keeps both indexes unique and every key in step. |
| UserModel.NoCaseVariants | models/userModel.js:49 | No two stored users' names differ only in case. |
| UserModel.CaseVariantRefused | models/userModel.js:14-20 | A name that differs from a stored one only in case is refused by the `usernameLower` index. |
| UserModel.RenameKeepsKeyInSync | models/userModel.js:39-46 | An update carrying a non-empty `username` stores a trimmed name and its lowercase as the key, whatever key the update itself carried. |
| UserModel.UpdateWithoutNameKeepsKey | models/userModel.js:39-46 | An update carrying neither `username` nor `usernameLower` leaves the name and the key alone. |
| UserModel.EmptyRenameDesyncs | models/userModel.js:41 | For every user with a non-empty name and a key in step, an update whose `username` is empty stores the empty name and keeps the old key, so the two fall out of step. |
| UserModel.UserDocument.constructor | models/userModel.js:7-12 | A new document holds the trimmed name and no key, and is new and modified. |
| UserModel.UserDocument.PreSave | models/userModel.js:31-36 | A new or renamed document gets the lowercase of its name as key. Any other document keeps its key. Afterwards the key is in step with the name. |
| UserModel.UserCollection.Store | models/userModel.js:10-19 | The write succeeds iff the id is placeable and neither key is held by another user. Then exactly that user is written; otherwise nothing changes. |
| UserModel.UserCollection.SaveAsWritten | models/userModel.js:31-36 | Validation runs before the hook: a document missing its key is refused untouched. Otherwise the hook runs and the write proceeds. |
| UserModel.UserCollection.Save | models/userModel.js:31-36 | The hook runs first. The save succeeds iff name, key and password are present and the id and keys are free, and then it stores the document in step. |
| UserModel.UserCollection.RegisterAsWritten | models/userModel.js:31-36 | A document built from a name and password is never saved as written. |
| UserModel.UserCollection.Register | models/userModel.js:31-36 | With the hook first, registration succeeds iff the trimmed name and the password are non-empty and the id, name and key are free. It then stores the name and its lowercase. |
| Scenarios.WalletScenario | controllers/accountController.js:233-245 | Create "Wallet", given 100, receive 40, rewrite the first to given 80, delete the second: the recomputed balance is 80. |
| Scenarios.DuplicateNameScenario | controllers/accountController.js:19-30 | A soft-deleted account's name still blocks its owner with 400. Another owner may use it. |
| Scenarios.RenameScenario | controllers/accountController.js:152-159 | A rename gives an owner two different accounts that are both named "Wallet". |
| Scenarios.ClosedAccountScenario | controllers/entryController.js:124-170 | A soft-deleted account takes no new entry (404). Its existing entry can still be rewritten, with an amount made absolute, and the balance follows. |
| Scenarios.CreateThenDelete | controllers/entryController.js:193-221 | Creating an entry and deleting it restores both collections exactly, balance included. |

## Left out

- Concurrency: each handler is one atomic step. The read-modify-write of
  `balance` can lose updates under concurrent requests, and that is not
  modelled.
- Partial failures: when the entry write succeeds but the balance write
  throws, the handler answers 500 with the store half-updated. These 500
  paths are not modelled, apart from the failed `save` of `createAccount`.
- Amounts are JavaScript numbers; they are modelled as integers in minor
  units, so floating-point rounding is not modelled.
- Dates and timestamps are integers supplied by the caller. Parsing of
  `startDate`/`endDate` is not modelled. A falsy bound is modelled as an
  absent one.
- `updatedAt` timestamps are not modelled. `createdAt` is the `now` of the
  creating call.
- ObjectId casting: an id that does not cast, which makes Mongoose throw and
  the handler answer 500, is not modelled. Ids are natural numbers.
- Message strings and the `error`/`success` flags of the reply are not
  modelled. Only the status and `data` are.
- `toLowerCase` is modelled on ASCII letters only. Unicode case mapping is
  not modelled.
- Non-string request values (numbers, arrays, objects where strings are
  expected) are not modelled. Request fields are typed.
- Sign-up and login (password hashing, token signing) and the token
  middleware are not part of this model. The owner's id is a parameter.
- Saving a user document that was loaded from the store has no caller in
  the repository. The `UserDocument.Valid` invariant assumes such a
  document holds the key it was stored with.
- UserModel.PreFindOneAndUpdate: the hook is modelled on the update object.
  No collection-level `findOneAndUpdate` is modelled, because the repository
  never calls it on users.
- Queries.LastEntryOf: when two entries of an account tie on
  (date, createdAt), the store may return either. The model states only
  that the chosen one has the greatest key.
- Ties in every other sort are likewise left to the store. Results are
  specified up to the order of equal keys.

## Findings

| source | as written | input that shows it | evidently intended | confidence | as-written member | corrected member |
|---|---|---|---|---|---|---|
| models/userModel.js:31-36 | `usernameLower` is `required`, but it is filled in by a `pre('save')` hook. Mongoose runs validation before the `pre('save')` hooks, so the check sees it unset. | Sign-up with username "alice" and any password: `new userModel({ username, password }).save()` fails validation ("usernameLower is required"), and sign-up answers 500. | The key is filled in before validation, in a `pre('validate')` hook, so the user is stored with `usernameLower` = "alice". | medium, not executed (rests on Mongoose's documented hook order) | UserModel.UserCollection.RegisterAsWritten | UserModel.UserCollection.Register |
