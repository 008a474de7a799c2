/** The entry schema: the record, the `type` enum, and the documents the entry
    handlers build on create and on update. */
module EntryModel {
  import opened Common
  import opened Text
  import opened AccountModel

  type EntryId = nat

  /** An entry document. `entryType` holds the schema's `type` field. It is a
      plain string because an update can store a value outside the enum. */
  datatype Entry = Entry(
    accountId: AccountId,
    entryType: string,
    amount: int,
    date: int,
    reason: string,
    createdBy: UserId,
    createdAt: int)

  /** An entry as a handler returns it: the document with its id. */
  datatype EntryRow = EntryRow(id: EntryId, entry: Entry)

  /** The schema's `enum: ['given', 'receive']`. */
  predicate IsEntryType(t: string) {
    t == "given" || t == "receive"
  }

  /** The `!accountId || !type || !amount` test of `createEntry`: an absent
      field, an empty type and a zero amount are all missing. */
  predicate MissingRequired(accountId: Option<AccountId>, entryType: Option<string>, amount: Option<int>) {
    accountId.None? || entryType.None? || entryType.value == "" || amount.None? || amount.value == 0
  }

  /** Both 400 checks of `createEntry`: a missing field, or a type outside the enum. */
  predicate EntryRequestRejected(accountId: Option<AccountId>, entryType: Option<string>, amount: Option<int>) {
    MissingRequired(accountId, entryType, amount) || !IsEntryType(entryType.value)
  }

  /** The entry `createEntry` saves: the amount made absolute, the date
      defaulting to now, the reason defaulting to empty and trimmed. */
  function NewEntry(accountId: AccountId, entryType: string, amount: int, date: Option<int>,
                    reason: Option<string>, owner: UserId, now: int): (e: Entry)
    ensures e.amount == Abs(amount) && e.amount >= 0 && (amount != 0 ==> e.amount > 0)
    ensures e.accountId == accountId && e.entryType == entryType && e.createdBy == owner && e.createdAt == now
    ensures e.date == date.GetOr(now)
    ensures e.reason == Trim(reason.GetOr("")) && IsTrimmed(e.reason)
  {
    TrimmedExactly(reason.GetOr(""));
    Entry(accountId, entryType, Abs(amount), date.GetOr(now), Trim(reason.GetOr("")), owner, now)
  }

  /** The type `updateEntry` stores and applies: a supplied non-empty type, unchecked
      against the enum, or else the stored one. */
  function EffectiveType(e: Entry, entryType: Option<string>): string {
    if entryType.Some? && entryType.value != "" then entryType.value else e.entryType
  }

  /** The amount `updateEntry` stores and applies: a supplied amount made absolute,
      or else the stored one. */
  function EffectiveAmount(e: Entry, amount: Option<int>): int {
    if amount.Some? then Abs(amount.value) else e.amount
  }

  /** The entry as `updateEntry` rewrites it. The account, the owner and the
      creation time are never touched, and a non-negative amount stays so. */
  function Revised(e: Entry, entryType: Option<string>, amount: Option<int>, date: Option<int>,
                   reason: Option<string>): (r: Entry)
    ensures r.accountId == e.accountId && r.createdBy == e.createdBy && r.createdAt == e.createdAt
    ensures e.amount >= 0 ==> r.amount >= 0
    ensures entryType.None? || entryType.value == "" ==> r.entryType == e.entryType
    ensures amount.None? ==> r.amount == e.amount
    ensures entryType.Some? && entryType.value != "" ==> r.entryType == entryType.value
    ensures amount.Some? ==> r.amount == Abs(amount.value)
    ensures r.date == date.GetOr(e.date)
    ensures reason.Some? ==> r.reason == Trim(reason.value)
    ensures reason.None? ==> r.reason == e.reason
  {
    e.(entryType := EffectiveType(e, entryType),
       amount := EffectiveAmount(e, amount),
       date := date.GetOr(e.date),
       reason := if reason.Some? then Trim(reason.value) else e.reason)
  }
}
