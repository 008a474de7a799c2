/** The ledger: the account and entry collections of one database, and the
    handlers of the account and entry controllers that write to them. Each
    handler runs as one atomic step; the caller's id comes already resolved
    from the request's token, and the clock is the `now` parameter. */
module Bookkeeping {
  import opened Common
  import opened AccountModel
  import opened EntryModel
  import opened BalanceEngine

  /** What every handler keeps true of the two collections: names are
      non-empty, each entry belongs to an existing account of the same owner and
      has a non-negative amount, each account's cached balance equals the
      balance recomputed from its entries, and every id in use is below the
      next one the store will hand out. */
  ghost predicate Consistent(accounts: map<AccountId, Account>, entries: map<EntryId, Entry>, nextId: nat) {
    && (forall id :: id in accounts ==> id < nextId && accounts[id].accountName != "")
    && (forall id :: id in entries ==>
          && id < nextId
          && entries[id].accountId in accounts
          && entries[id].createdBy == accounts[entries[id].accountId].createdBy
          && entries[id].amount >= 0)
    && (forall id {:trigger Balance(entries, id)} :: id in accounts ==> accounts[id].balance == Balance(entries, id))
  }

  /** Adding a fresh account with balance 0 keeps the ledger consistent: no
      entry can refer to an id that was not yet in use. */
  lemma ConsistentAfterOpenAccount(accounts: map<AccountId, Account>, entries: map<EntryId, Entry>, nextId: nat,
                                   account: Account)
    requires Consistent(accounts, entries, nextId)
    requires account.balance == 0 && account.accountName != ""
    ensures Consistent(accounts[nextId := account], entries, nextId + 1)
  {
    BalanceWithoutEntries(entries, nextId);
  }

  /** Rewriting an account's name, phone or `isActive` flag keeps the ledger consistent. */
  lemma ConsistentAfterAccountEdit(accounts: map<AccountId, Account>, entries: map<EntryId, Entry>, nextId: nat,
                                   id: AccountId, account: Account)
    requires Consistent(accounts, entries, nextId)
    requires id in accounts && account.accountName != ""
    requires account.balance == accounts[id].balance && account.createdBy == accounts[id].createdBy
    ensures Consistent(accounts[id := account], entries, nextId)
  {
    forall a | a in accounts[id := account] ensures accounts[id := account][a].balance == Balance(entries, a) {
    }
  }

  /** Saving an entry of the account's owner under a fresh id, and adding its
      delta to that account's balance, keeps the ledger consistent. */
  lemma ConsistentAfterCreateEntry(accounts: map<AccountId, Account>, entries: map<EntryId, Entry>, nextId: nat,
                                   e: Entry)
    requires Consistent(accounts, entries, nextId)
    requires e.accountId in accounts
    requires e.createdBy == accounts[e.accountId].createdBy && e.amount >= 0
    ensures Consistent(accounts[e.accountId := accounts[e.accountId].(balance := accounts[e.accountId].balance + EntryDelta(e))],
                       entries[nextId := e], nextId + 1)
  {
    var accounts' := accounts[e.accountId := accounts[e.accountId].(balance := accounts[e.accountId].balance + EntryDelta(e))];
    forall a | a in accounts' ensures accounts'[a].balance == Balance(entries[nextId := e], a) {
      BalanceAfterInsert(entries, nextId, e, a);
    }
  }

  /** Rewriting an entry under the same account, and replacing its old delta by
      its new one in that account's balance, keeps the ledger consistent. */
  lemma ConsistentAfterUpdateEntry(accounts: map<AccountId, Account>, entries: map<EntryId, Entry>, nextId: nat,
                                   id: EntryId, e: Entry)
    requires Consistent(accounts, entries, nextId)
    requires id in entries && e.accountId == entries[id].accountId
    requires e.createdBy == entries[id].createdBy && e.amount >= 0
    ensures Consistent(accounts[e.accountId := accounts[e.accountId].(balance := accounts[e.accountId].balance - EntryDelta(entries[id]) + EntryDelta(e))],
                       entries[id := e], nextId)
  {
    var accounts' := accounts[e.accountId := accounts[e.accountId].(balance := accounts[e.accountId].balance - EntryDelta(entries[id]) + EntryDelta(e))];
    forall a | a in accounts' ensures accounts'[a].balance == Balance(entries[id := e], a) {
      BalanceAfterReplace(entries, id, e, a);
    }
  }

  /** Removing an entry and taking its delta back out of its account's balance
      keeps the ledger consistent. */
  lemma ConsistentAfterDeleteEntry(accounts: map<AccountId, Account>, entries: map<EntryId, Entry>, nextId: nat,
                                   id: EntryId)
    requires Consistent(accounts, entries, nextId)
    requires id in entries
    ensures Consistent(accounts[entries[id].accountId := accounts[entries[id].accountId].(
                         balance := accounts[entries[id].accountId].balance - EntryDelta(entries[id]))],
                       entries - {id}, nextId)
  {
    var a := entries[id].accountId;
    var accounts' := accounts[a := accounts[a].(balance := accounts[a].balance - EntryDelta(entries[id]))];
    forall b | b in accounts' ensures accounts'[b].balance == Balance(entries - {id}, b) {
      BalanceAfterRemove(entries, id, b);
    }
  }

  class Ledger {
    var accounts: map<AccountId, Account>
    var entries: map<EntryId, Entry>
    /** The store's id generator: every id handed out so far is below it. */
    var nextId: nat

    ghost predicate Valid()
      reads this
    {
      Consistent(accounts, entries, nextId)
    }

    constructor ()
      ensures Valid() && accounts == map[] && entries == map[]
    {
      accounts, entries, nextId := map[], map[], 0;
    }

    /** `createAccount`. */
    method CreateAccount(owner: UserId, accountName: Option<string>, phoneNumber: Option<string>, now: int)
      returns (r: Reply<AccountRow>)
      requires Valid()
      modifies this
      ensures Valid() && entries == old(entries)
      ensures r.status == BadRequest <==> AccountNameRejected(old(accounts), owner, accountName)
      ensures r.status == ServerError
          <==> !AccountNameRejected(old(accounts), owner, accountName) && ValidatePhone(phoneNumber.GetOr("")).None?
      ensures r.status != Created ==> (r.status == BadRequest || r.status == ServerError) && r.data == None && accounts == old(accounts)
      ensures r.status == Created ==>
                && r.data.Some? && r.data.value.id !in old(accounts)
                && r.data.value.account == NewAccount(accountName.value, ValidatePhone(phoneNumber.GetOr("")).value, owner, now)
                && accounts == old(accounts)[r.data.value.id := r.data.value.account]
    {
      if accountName.None? || accountName.value == "" {
        return Reply(BadRequest, None);
      }
      var name := accountName.value;
      var existing := exists id :: id in accounts && accounts[id].accountName == name && accounts[id].createdBy == owner;
      if existing {
        return Reply(BadRequest, None);
      }
      var phone := ValidatePhone(phoneNumber.GetOr(""));
      if phone.None? {
        return Reply(ServerError, None);
      }
      var account := NewAccount(name, phone.value, owner, now);
      var id := nextId;
      ConsistentAfterOpenAccount(accounts, entries, nextId, account);
      accounts, nextId := accounts[id := account], nextId + 1;
      r := Reply(Created, Some(AccountRow(id, account)));
    }

    /** `updateAccount`: neither the new name's uniqueness nor `isActive` is checked. */
    method UpdateAccount(owner: UserId, accountId: AccountId, accountName: Option<string>, phoneNumber: Option<string>)
      returns (r: Reply<AccountRow>)
      requires Valid()
      modifies this
      ensures Valid() && entries == old(entries)
      ensures r.status == NotFound <==> !Owned(old(accounts), owner, accountId)
      ensures r.status == NotFound ==> r.data == None && accounts == old(accounts)
      ensures r.status != NotFound ==>
                && r.status == Ok
                && accounts == old(accounts)[accountId := Amended(old(accounts)[accountId], accountName, phoneNumber)]
                && r.data == Some(AccountRow(accountId, accounts[accountId]))
    {
      if !Owned(accounts, owner, accountId) {
        return Reply(NotFound, None);
      }
      var updated := Amended(accounts[accountId], accountName, phoneNumber);
      ConsistentAfterAccountEdit(accounts, entries, nextId, accountId, updated);
      accounts := accounts[accountId := updated];
      r := Reply(Ok, Some(AccountRow(accountId, updated)));
    }

    /** `deleteAccount`: a soft delete that clears `isActive` and keeps the
        account's balance and entries. */
    method DeleteAccount(owner: UserId, accountId: AccountId) returns (r: Reply<()>)
      requires Valid()
      modifies this
      ensures Valid() && entries == old(entries) && r.data == None
      ensures r.status == NotFound <==> !Owned(old(accounts), owner, accountId)
      ensures r.status == NotFound ==> accounts == old(accounts)
      ensures r.status != NotFound ==>
                && r.status == Ok
                && accounts == old(accounts)[accountId := old(accounts)[accountId].(isActive := false)]
    {
      if !Owned(accounts, owner, accountId) {
        return Reply(NotFound, None);
      }
      var updated := accounts[accountId].(isActive := false);
      ConsistentAfterAccountEdit(accounts, entries, nextId, accountId, updated);
      accounts := accounts[accountId := updated];
      r := Reply(Ok, None);
    }

    /** `getAccountBalance`: recomputes the balance from the account's entries
        and writes it back. While the ledger is consistent the write changes
        nothing, so a second call returns the same value. */
    method GetAccountBalance(owner: UserId, accountId: AccountId) returns (r: Reply<int>)
      requires Valid()
      modifies this
      ensures Valid() && entries == old(entries)
      ensures r.status == NotFound <==> !ActiveOwned(old(accounts), owner, accountId)
      ensures r.status == NotFound ==> r.data == None
      ensures r.status != NotFound ==> r.status == Ok && r.data == Some(Balance(entries, accountId))
      ensures r.status != NotFound ==> r.data == Some(old(accounts)[accountId].balance)
      ensures accounts == old(accounts)
    {
      if !ActiveOwned(accounts, owner, accountId) {
        return Reply(NotFound, None);
      }
      var balance := RecomputeBalance(entries, accountId);
      accounts := accounts[accountId := accounts[accountId].(balance := balance)];
      r := Reply(Ok, Some(balance));
    }

    /** `createEntry`. */
    method CreateEntry(owner: UserId, accountId: Option<AccountId>, entryType: Option<string>, amount: Option<int>,
                       date: Option<int>, reason: Option<string>, now: int)
      returns (r: Reply<EntryRow>)
      requires Valid()
      modifies this
      ensures Valid()
      ensures r.status == BadRequest <==> EntryRequestRejected(accountId, entryType, amount)
      ensures r.status == NotFound
          <==> !EntryRequestRejected(accountId, entryType, amount) && !ActiveOwned(old(accounts), owner, accountId.value)
      ensures r.status != Created ==>
                (r.status == BadRequest || r.status == NotFound) && r.data == None && accounts == old(accounts) && entries == old(entries)
      ensures r.status == Created ==>
                && r.data.Some? && r.data.value.id !in old(entries)
                && r.data.value.entry == NewEntry(accountId.value, entryType.value, amount.value, date, reason, owner, now)
                && entries == old(entries)[r.data.value.id := r.data.value.entry]
                && accounts == old(accounts)[accountId.value := old(accounts)[accountId.value].(
                     balance := old(accounts)[accountId.value].balance + EntryDelta(r.data.value.entry))]
    {
      if MissingRequired(accountId, entryType, amount) {
        return Reply(BadRequest, None);
      }
      var t := entryType.value;
      if !IsEntryType(t) {
        return Reply(BadRequest, None);
      }
      var aid := accountId.value;
      if !ActiveOwned(accounts, owner, aid) {
        return Reply(NotFound, None);
      }
      var account := accounts[aid];
      var entry := NewEntry(aid, t, amount.value, date, reason, owner, now);
      var id := nextId;

      var newBalance := ApplyDelta(account.balance, t, Abs(amount.value));
      ConsistentAfterCreateEntry(accounts, entries, nextId, entry);
      accounts, entries, nextId := accounts[aid := account.(balance := newBalance)], entries[id := entry], nextId + 1;
      r := Reply(Created, Some(EntryRow(id, entry)));
    }

    /** `updateEntry`: takes the stored entry's delta out of the balance, rewrites
        the entry, and puts the delta of the effective type and amount in. The
        account is fetched by id alone, and a new type is not checked against the enum. */
    method UpdateEntry(owner: UserId, entryId: EntryId, entryType: Option<string>, amount: Option<int>,
                       date: Option<int>, reason: Option<string>)
      returns (r: Reply<EntryRow>)
      requires Valid()
      modifies this
      ensures Valid()
      ensures r.status == NotFound <==> !(entryId in old(entries) && old(entries)[entryId].createdBy == owner)
      ensures r.status == NotFound ==> r.data == None && accounts == old(accounts) && entries == old(entries)
      ensures r.status != NotFound ==>
                var e := old(entries)[entryId];
                var e' := Revised(e, entryType, amount, date, reason);
                && r.status == Ok && r.data == Some(EntryRow(entryId, e'))
                && entries == old(entries)[entryId := e']
                && accounts == old(accounts)[e.accountId := old(accounts)[e.accountId].(
                     balance := old(accounts)[e.accountId].balance - EntryDelta(e) + EntryDelta(e'))]
    {
      if !(entryId in entries && entries[entryId].createdBy == owner) {
        return Reply(NotFound, None);
      }
      var entry := entries[entryId];
      var account := accounts[entry.accountId];

      var newBalance := ReverseDelta(account.balance, entry.entryType, entry.amount);

      var updated := Revised(entry, entryType, amount, date, reason);

      var finalType := EffectiveType(entry, entryType);
      var finalAmount := EffectiveAmount(entry, amount);
      newBalance := ApplyDelta(newBalance, finalType, finalAmount);
      ConsistentAfterUpdateEntry(accounts, entries, nextId, entryId, updated);
      accounts, entries := accounts[entry.accountId := account.(balance := newBalance)], entries[entryId := updated];
      r := Reply(Ok, Some(EntryRow(entryId, updated)));
    }

    /** `deleteEntry`: takes the stored entry's delta out of the balance and
        removes the entry for good. */
    method DeleteEntry(owner: UserId, entryId: EntryId) returns (r: Reply<()>)
      requires Valid()
      modifies this
      ensures Valid() && r.data == None
      ensures r.status == NotFound <==> !(entryId in old(entries) && old(entries)[entryId].createdBy == owner)
      ensures r.status == NotFound ==> accounts == old(accounts) && entries == old(entries)
      ensures r.status != NotFound ==>
                var e := old(entries)[entryId];
                && r.status == Ok
                && entries == old(entries) - {entryId}
                && accounts == old(accounts)[e.accountId := old(accounts)[e.accountId].(
                     balance := old(accounts)[e.accountId].balance - EntryDelta(e))]
    {
      if !(entryId in entries && entries[entryId].createdBy == owner) {
        return Reply(NotFound, None);
      }
      var entry := entries[entryId];
      var account := accounts[entry.accountId];

      var newBalance := ReverseDelta(account.balance, entry.entryType, entry.amount);

      ConsistentAfterDeleteEntry(accounts, entries, nextId, entryId);
      accounts, entries := accounts[entry.accountId := account.(balance := newBalance)], entries - {entryId};
      r := Reply(Ok, None);
    }
  }
}
