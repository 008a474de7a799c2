/** Request sequences a client of the ledger can send, and what they come to. */
module Scenarios {
  import opened Common
  import opened Text
  import opened AccountModel
  import opened EntryModel
  import opened BalanceEngine
  import opened Bookkeeping

  /** An account "Wallet"; given 100 (balance 100); received 40 (60); the
      first entry rewritten to given 80 (40); the second entry deleted (80).
      The recomputed balance is then 80, the cached one. */
  method WalletScenario(owner: UserId, now: int) returns (balance: int)
    ensures balance == 80
  {
    var ledger := new Ledger();
    var account := ledger.CreateAccount(owner, Some("Wallet"), None, now);
    assert Trim("") == "" by {
      assert TrimStart("") == "" && TrimEnd("") == "";
    }
    var wallet := account.data.value.id;
    assert ledger.accounts[wallet].balance == 0;

    var first := ledger.CreateEntry(owner, Some(wallet), Some("given"), Some(100), None, None, now);
    var given := first.data.value.id;
    assert ledger.accounts[wallet].balance == 100;

    var second := ledger.CreateEntry(owner, Some(wallet), Some("receive"), Some(40), None, None, now);
    var received := second.data.value.id;
    assert ledger.accounts[wallet].balance == 60;

    assert ledger.entries[given].entryType == "given" && ledger.entries[given].amount == 100;
    var rewrite := ledger.UpdateEntry(owner, given, Some("given"), Some(80), None, None);
    assert ledger.accounts[wallet].balance == 40;

    assert ledger.entries[received].entryType == "receive" && ledger.entries[received].amount == 40;
    var removal := ledger.DeleteEntry(owner, received);
    assert ledger.accounts[wallet].balance == 80;

    var fetched := ledger.GetAccountBalance(owner, wallet);
    balance := fetched.data.value;
  }

  /** The duplicate-name check looks at the owner's accounts whether active or
      not, and at no one else's: a soft-deleted "Wallet" still blocks the name
      for its owner, while another owner may use it. */
  method DuplicateNameScenario(owner: UserId, other: UserId, now: int)
    returns (firstStatus: Status, closed: Status, reopened: Status, elsewhere: Status)
    requires owner != other
    ensures firstStatus == Created && closed == Ok
    ensures reopened == BadRequest && elsewhere == Created
  {
    var ledger := new Ledger();
    assert Trim("") == "" by {
      assert TrimStart("") == "" && TrimEnd("") == "";
    }
    var first := ledger.CreateAccount(owner, Some("Wallet"), None, now);
    firstStatus := first.status;
    var wallet := first.data.value.id;
    var deletion := ledger.DeleteAccount(owner, wallet);
    closed := deletion.status;
    var again := ledger.CreateAccount(owner, Some("Wallet"), None, now);
    reopened := again.status;
    assert !AccountNameRejected(ledger.accounts, other, Some("Wallet"));
    var theirs := ledger.CreateAccount(other, Some("Wallet"), None, now);
    elsewhere := theirs.status;
  }

  /** `updateAccount` does not check the new name: an owner can rename one
      account to the name of another and end up with two of that name. */
  method RenameScenario(owner: UserId, now: int)
    returns (a: AccountId, b: AccountId, renamed: Status, nameOfA: string, nameOfB: string)
    ensures renamed == Ok && a != b
    ensures nameOfA == nameOfB == "Wallet"
  {
    var ledger := new Ledger();
    assert Trim("") == "" by {
      assert TrimStart("") == "" && TrimEnd("") == "";
    }
    var first := ledger.CreateAccount(owner, Some("Wallet"), None, now);
    a := first.data.value.id;
    assert !AccountNameRejected(ledger.accounts, owner, Some("Bank"));
    var second := ledger.CreateAccount(owner, Some("Bank"), None, now);
    b := second.data.value.id;
    var update := ledger.UpdateAccount(owner, b, Some("Wallet"), None);
    renamed := update.status;
    nameOfA, nameOfB := ledger.accounts[a].accountName, ledger.accounts[b].accountName;
  }

  /** A soft-deleted account takes no new entries, but its existing entries
      can still be rewritten, and their deltas still reach its balance. */
  method ClosedAccountScenario(owner: UserId, now: int) returns (created: Status, rewritten: Status, balance: int)
    ensures created == NotFound && rewritten == Ok && balance == 30
  {
    var ledger := new Ledger();
    assert Trim("") == "" by {
      assert TrimStart("") == "" && TrimEnd("") == "";
    }
    var account := ledger.CreateAccount(owner, Some("Wallet"), None, now);
    var wallet := account.data.value.id;
    var entry := ledger.CreateEntry(owner, Some(wallet), Some("given"), Some(10), None, None, now);
    var given := entry.data.value.id;
    assert ledger.accounts[wallet].balance == 10;
    var deletion := ledger.DeleteAccount(owner, wallet);
    assert ledger.entries[given].entryType == "given" && ledger.entries[given].amount == 10;
    var refused := ledger.CreateEntry(owner, Some(wallet), Some("given"), Some(5), None, None, now);
    created := refused.status;
    var update := ledger.UpdateEntry(owner, given, None, Some(-30), None, None);
    rewritten := update.status;
    balance := ledger.accounts[wallet].balance;
  }

  /** Creating an entry and then deleting it leaves both collections exactly
      as they were, the account's balance included. */
  method CreateThenDelete(ledger: Ledger, owner: UserId, accountId: Option<AccountId>, entryType: Option<string>,
                          amount: Option<int>, date: Option<int>, reason: Option<string>, now: int)
    requires ledger.Valid()
    modifies ledger
    ensures ledger.Valid()
    ensures ledger.accounts == old(ledger.accounts) && ledger.entries == old(ledger.entries)
  {
    var created := ledger.CreateEntry(owner, accountId, entryType, amount, date, reason, now);
    if created.status == Created {
      var deleted := ledger.DeleteEntry(owner, created.data.value.id);
    }
  }
}
