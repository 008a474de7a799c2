/** The account schema: the record, its defaults, the phone validator, and the
    lookups the account handlers run against the account collection. */
module AccountModel {
  import opened Common
  import opened Text

  type AccountId = nat

  /** An account document. `balance` caches the signed sum of the account's entries. */
  datatype Account = Account(
    accountName: string,
    phoneNumber: string,
    balance: int,
    createdBy: UserId,
    isActive: bool,
    createdAt: int)

  /** An account as a handler returns it: the document with its id. */
  datatype AccountRow = AccountRow(id: AccountId, account: Account)

  /** The pattern `^[0-9]{10}$`. */
  predicate IsTenDigits(s: string) {
    |s| == 10 && forall i :: 0 <= i < |s| ==> IsDigit(s[i])
  }

  /** The phone match validator, which lets the empty string through. */
  predicate PhoneAccepted(s: string) {
    s == "" || IsTenDigits(s)
  }

  /** Saving a phone number: the `trim` setter, then the match validator.
      `None` is the validation error that makes `save` throw. */
  function ValidatePhone(raw: string): (r: Option<string>)
    ensures r.Some? <==> PhoneAccepted(Trim(raw))
    ensures r.Some? ==> r.value == Trim(raw)
    ensures r.Some? ==> IsTrimmed(r.value) && (r.value == "" || IsTenDigits(r.value))
  {
    TrimmedExactly(raw);
    var phone := Trim(raw);
    if PhoneAccepted(phone) then Some(phone) else None
  }

  /** The two checks `createAccount` makes before saving: a name must be
      supplied and non-empty, and the owner must hold no account of that name. */
  predicate AccountNameRejected(accounts: map<AccountId, Account>, owner: UserId, accountName: Option<string>) {
    accountName.None? || accountName.value == "" || NameTaken(accounts, owner, accountName.value)
  }

  /** A new account as `new accountModel({...})` builds it: the schema
      defaults `balance = 0` and `isActive = true` fill the fields not given. */
  function NewAccount(accountName: string, phoneNumber: string, owner: UserId, now: int): Account {
    Account(accountName, phoneNumber, 0, owner, true, now)
  }

  /** The fields `updateAccount` writes: the name only when a non-empty one is
      supplied, the phone (through the `trim` setter) whenever one is supplied. */
  function Amended(a: Account, accountName: Option<string>, phoneNumber: Option<string>): (r: Account)
    ensures r.balance == a.balance && r.createdBy == a.createdBy
    ensures r.isActive == a.isActive && r.createdAt == a.createdAt
    ensures a.accountName != "" ==> r.accountName != ""
    ensures accountName.Some? && accountName.value != "" ==> r.accountName == accountName.value
    ensures accountName.None? || accountName.value == "" ==> r.accountName == a.accountName
    ensures phoneNumber.Some? ==> r.phoneNumber == Trim(phoneNumber.value)
    ensures phoneNumber.None? ==> r.phoneNumber == a.phoneNumber
  {
    a.(accountName := if accountName.Some? && accountName.value != "" then accountName.value else a.accountName,
       phoneNumber := if phoneNumber.Some? then Trim(phoneNumber.value) else a.phoneNumber)
  }

  /** `findOne({ _id, createdBy })`. */
  predicate Owned(accounts: map<AccountId, Account>, owner: UserId, id: AccountId) {
    id in accounts && accounts[id].createdBy == owner
  }

  /** `findOne({ _id, createdBy, isActive: true })`. */
  predicate ActiveOwned(accounts: map<AccountId, Account>, owner: UserId, id: AccountId) {
    Owned(accounts, owner, id) && accounts[id].isActive
  }

  /** `findOne({ accountName, createdBy })`: active and soft-deleted accounts alike. */
  predicate NameTaken(accounts: map<AccountId, Account>, owner: UserId, accountName: string) {
    exists id :: id in accounts && accounts[id].accountName == accountName && accounts[id].createdBy == owner
  }

  /** A ten-digit number is accepted and a five-digit one refused; an
      ideographic space in front is trimmed away before the pattern is tried. */
  lemma PhoneExamples()
    ensures ValidatePhone("9876543210") == Some("9876543210")
    ensures ValidatePhone("\U{3000}9876543210") == Some("9876543210")
    ensures ValidatePhone("12345").None?
  {
    var good := "9876543210";
    assert !IsSpace(good[0]) && !IsSpace(good[9]);
    assert TrimStart(good) == good;
    assert TrimEnd(good) == good;
    assert IsTenDigits(good);
    var padded := "\U{3000}9876543210";
    assert IsSpace(padded[0]) && padded[1..] == good;
    assert TrimStart(padded) == good;
    var bad := "12345";
    assert !IsSpace(bad[0]) && !IsSpace(bad[4]);
    assert TrimStart(bad) == bad;
    assert TrimEnd(bad) == bad;
  }
}
