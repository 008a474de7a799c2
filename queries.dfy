/** The read-only handlers: each one filters a collection by the caller's id,
    puts the matches in the order the handler asks for, and, for entries,
    joins each one with the name and phone of its account. They change nothing,
    so they are functions of the two collections. */
module Queries {
  import opened Common
  import opened Sorting
  import opened AccountModel
  import opened EntryModel
  import opened Bookkeeping

  /** The `$project` stage of `getAllAccounts`: what is kept of an account's latest entry. */
  datatype LastEntry = LastEntry(amount: int, entryType: string, date: int, createdAt: int)

  /** A row of `getAllAccounts`: the account with its `lastEntry` field. */
  datatype AccountSummary = AccountSummary(id: AccountId, account: Account, lastEntry: Option<LastEntry>)

  /** What `populate('accountId', 'accountName phoneNumber')` puts in place of the account id. */
  datatype AccountRef = AccountRef(id: AccountId, accountName: string, phoneNumber: string)

  /** An entry with its account populated; `account` is `None` (null) when no such account exists. */
  datatype PopulatedEntry = PopulatedEntry(id: EntryId, entry: Entry, account: Option<AccountRef>)

  /** The sort key `{ date, createdAt }`. */
  function EntryKey(row: EntryRow): Key {
    Key(row.entry.date, row.entry.createdAt)
  }

  function PopulatedKey(p: PopulatedEntry): Key {
    Key(p.entry.date, p.entry.createdAt)
  }

  /** The sort key `{ createdAt }`. */
  function AccountKey(row: AccountSummary): Key {
    Key(row.account.createdAt, 0)
  }

  /** The `date` filter built from the optional `startDate` and `endDate`
      bounds: `$gte` for the one, `$lte` for the other, each only when given. */
  predicate InRange(date: int, startDate: Option<int>, endDate: Option<int>) {
    (startDate.None? || startDate.value <= date) && (endDate.None? || date <= endDate.value)
  }

  /** The rows of `entries` that satisfy `keep`. */
  function RowsWhere(entries: map<EntryId, Entry>, keep: Entry -> bool): (rows: set<EntryRow>)
    ensures forall row :: row in rows <==> row.id in entries && row.entry == entries[row.id] && keep(row.entry)
  {
    set id | id in entries && keep(entries[id]) :: EntryRow(id, entries[id])
  }

  /** The account `populate` finds for an entry, if any. */
  function AccountOf(accounts: map<AccountId, Account>, e: Entry): Option<AccountRef> {
    var a := e.accountId;
    if a in accounts then Some(AccountRef(a, accounts[a].accountName, accounts[a].phoneNumber)) else None
  }

  function Populate(accounts: map<AccountId, Account>, row: EntryRow): PopulatedEntry {
    PopulatedEntry(row.id, row.entry, AccountOf(accounts, row.entry))
  }

  /** `getAccountById`: the caller's account, if it is active. */
  function AccountById(accounts: map<AccountId, Account>, owner: UserId, id: AccountId): (r: Reply<AccountRow>)
    ensures r.status == Ok <==> ActiveOwned(accounts, owner, id)
    ensures r.status != Ok ==> r.status == NotFound && r.data.None?
    ensures r.status == Ok ==> r.data.Some? && r.data.value.id == id && r.data.value.account.createdBy == owner
    ensures r.status == Ok ==> r.data.value.account == accounts[id] && r.data.value.account.isActive
  {
    if ActiveOwned(accounts, owner, id) then Reply(Ok, Some(AccountRow(id, accounts[id])))
    else Reply(NotFound, None)
  }

  /** The inner pipeline of `getAllAccounts`' `$lookup`: every entry of the
      account, whoever recorded it, sorted latest first; the first one, projected. */
  ghost function LastEntryOf(entries: map<EntryId, Entry>, accountId: AccountId): (r: Option<LastEntry>)
    ensures r.None? <==> forall id :: id in entries ==> entries[id].accountId != accountId
    ensures r.Some? ==>
              exists id :: id in entries && entries[id].accountId == accountId &&
                r.value == LastEntry(entries[id].amount, entries[id].entryType, entries[id].date, entries[id].createdAt) &&
                forall other :: other in entries && entries[other].accountId == accountId ==>
                  KeyLe(Key(entries[other].date, entries[other].createdAt), Key(entries[id].date, entries[id].createdAt))
  {
    var rows := RowsWhere(entries, (e: Entry) => e.accountId == accountId);
    var sorted := SortSet(rows, EntryKey, Descending);
    PermutationOfSet(sorted, rows);
    if sorted == [] then
      assert forall id :: id in entries ==> entries[id].accountId != accountId by {
        forall id | id in entries ensures entries[id].accountId != accountId {
          assert EntryRow(id, entries[id]) !in rows;
        }
      }
      None
    else
      var top := sorted[0];
      assert forall other :: other in entries && entries[other].accountId == accountId ==>
               KeyLe(Key(entries[other].date, entries[other].createdAt), EntryKey(top)) by {
        forall other | other in entries && entries[other].accountId == accountId
          ensures KeyLe(Key(entries[other].date, entries[other].createdAt), EntryKey(top))
        {
          var row := EntryRow(other, entries[other]);
          assert row in sorted;
          var k :| 0 <= k < |sorted| && sorted[k] == row;
          if k > 0 {
            assert InOrder(Descending, EntryKey(sorted[0]), EntryKey(sorted[k]));
          }
        }
      }
      assert top in rows;
      Some(LastEntry(top.entry.amount, top.entry.entryType, top.entry.date, top.entry.createdAt))
  }

  /** `getAllAccounts`: the caller's active accounts, newest first, each with
      its latest entry. */
  ghost function AccountList(accounts: map<AccountId, Account>, entries: map<EntryId, Entry>, owner: UserId)
    : (r: seq<AccountSummary>)
    ensures SortedBy(r, AccountKey, Descending) && Distinct(r)
    ensures forall row :: row in r <==>
              ActiveOwned(accounts, owner, row.id) && row.account == accounts[row.id] &&
              row.lastEntry == LastEntryOf(entries, row.id)
  {
    var rows := set id | id in accounts && ActiveOwned(accounts, owner, id) ::
                  AccountSummary(id, accounts[id], LastEntryOf(entries, id));
    var sorted := SortSet(rows, AccountKey, Descending);
    PermutationOfSet(sorted, rows);
    sorted
  }

  /** `getEntriesByDateRange`: the caller's entries of one of their active
      accounts, within the bounds given, oldest first. */
  ghost function EntriesByDateRange(accounts: map<AccountId, Account>, entries: map<EntryId, Entry>, owner: UserId,
                                    accountId: AccountId, startDate: Option<int>, endDate: Option<int>)
    : (r: Reply<seq<EntryRow>>)
    ensures r.status == Ok <==> ActiveOwned(accounts, owner, accountId)
    ensures r.status != Ok ==> r.status == NotFound && r.data.None?
    ensures r.status == Ok ==>
              && r.data.Some?
              && SortedBy(r.data.value, EntryKey, Ascending) && Distinct(r.data.value)
              && forall row :: row in r.data.value <==>
                   row.id in entries && row.entry == entries[row.id] &&
                   row.entry.accountId == accountId && row.entry.createdBy == owner &&
                   InRange(row.entry.date, startDate, endDate)
  {
    if !ActiveOwned(accounts, owner, accountId) then Reply(NotFound, None)
    else
      var rows := RowsWhere(entries, (e: Entry) => e.accountId == accountId && e.createdBy == owner && InRange(e.date, startDate, endDate));
      var sorted := SortSet(rows, EntryKey, Ascending);
      PermutationOfSet(sorted, rows);
      Reply(Ok, Some(sorted))
  }

  /** `getEntriesByAccount`: the caller's entries of one of their active
      accounts, oldest first. */
  ghost function EntriesByAccount(accounts: map<AccountId, Account>, entries: map<EntryId, Entry>, owner: UserId,
                                  accountId: AccountId)
    : (r: Reply<seq<EntryRow>>)
    ensures r.status == Ok <==> ActiveOwned(accounts, owner, accountId)
    ensures r.status != Ok ==> r.status == NotFound && r.data.None?
    ensures r.status == Ok ==>
              && r.data.Some?
              && SortedBy(r.data.value, EntryKey, Ascending) && Distinct(r.data.value)
              && forall row :: row in r.data.value <==>
                   row.id in entries && row.entry == entries[row.id] &&
                   row.entry.accountId == accountId && row.entry.createdBy == owner
  {
    if !ActiveOwned(accounts, owner, accountId) then Reply(NotFound, None)
    else
      var rows := RowsWhere(entries, (e: Entry) => e.accountId == accountId && e.createdBy == owner);
      var sorted := SortSet(rows, EntryKey, Ascending);
      PermutationOfSet(sorted, rows);
      Reply(Ok, Some(sorted))
  }

  /** `getAllEntries`: every entry the caller recorded, on active and
      soft-deleted accounts alike, latest first, each with its account
      populated. The join is made before the sort; as the sort key does not
      involve the account, the order is the same. */
  ghost function AllEntries(accounts: map<AccountId, Account>, entries: map<EntryId, Entry>, owner: UserId)
    : (r: seq<PopulatedEntry>)
    ensures SortedBy(r, PopulatedKey, Descending) && Distinct(r)
    ensures forall p :: p in r <==>
              p.id in entries && p.entry == entries[p.id] && p.entry.createdBy == owner &&
              p.account == AccountOf(accounts, p.entry)
  {
    var rows := set id | id in entries && entries[id].createdBy == owner :: Populate(accounts, EntryRow(id, entries[id]));
    var sorted := SortSet(rows, PopulatedKey, Descending);
    PermutationOfSet(sorted, rows);
    sorted
  }

  /** `getEntryById`: one of the caller's entries, with its account populated. */
  function EntryById(accounts: map<AccountId, Account>, entries: map<EntryId, Entry>, owner: UserId, id: EntryId)
    : (r: Reply<PopulatedEntry>)
    ensures r.status == Ok <==> id in entries && entries[id].createdBy == owner
    ensures r.status != Ok ==> r.status == NotFound && r.data.None?
    ensures r.status == Ok ==> r.data.Some? && r.data.value.id == id && r.data.value.entry == entries[id]
  {
    if id in entries && entries[id].createdBy == owner then Reply(Ok, Some(Populate(accounts, EntryRow(id, entries[id]))))
    else Reply(NotFound, None)
  }

  /** `getEntryById` answers for exactly the entries `getAllEntries` lists,
      and with the same populated row. */
  lemma EntryByIdAgreesWithAllEntries(accounts: map<AccountId, Account>, entries: map<EntryId, Entry>,
                                      owner: UserId, id: EntryId)
    ensures EntryById(accounts, entries, owner, id).status == Ok
        <==> exists p :: p in AllEntries(accounts, entries, owner) && p.id == id
    ensures EntryById(accounts, entries, owner, id).status == Ok ==>
              EntryById(accounts, entries, owner, id).data.value in AllEntries(accounts, entries, owner)
  {
    var all := AllEntries(accounts, entries, owner);
    if id in entries && entries[id].createdBy == owner {
      assert Populate(accounts, EntryRow(id, entries[id])) in all;
    }
  }

  /** An empty range query is the plain per-account query, and every bounded
      query returns a subset of it. */
  lemma RangeNarrowsAccountQuery(accounts: map<AccountId, Account>, entries: map<EntryId, Entry>, owner: UserId,
                                 accountId: AccountId, startDate: Option<int>, endDate: Option<int>)
    ensures EntriesByDateRange(accounts, entries, owner, accountId, None, None) == EntriesByAccount(accounts, entries, owner, accountId)
    ensures EntriesByDateRange(accounts, entries, owner, accountId, startDate, endDate).status == Ok ==>
              forall row :: row in EntriesByDateRange(accounts, entries, owner, accountId, startDate, endDate).data.value ==>
                row in EntriesByAccount(accounts, entries, owner, accountId).data.value
  {
    if ActiveOwned(accounts, owner, accountId) {
      var unbounded := RowsWhere(entries, (e: Entry) => e.accountId == accountId && e.createdBy == owner && InRange(e.date, None, None));
      var plain := RowsWhere(entries, (e: Entry) => e.accountId == accountId && e.createdBy == owner);
      assert unbounded == plain;
    }
  }

  /** Soft-deleting an account takes it off the account list but keeps its
      entries, with the same populated name and phone, on the dashboard. */
  lemma SoftDeleteHidesAccountOnly(accounts: map<AccountId, Account>, entries: map<EntryId, Entry>, owner: UserId,
                                   id: AccountId)
    requires id in accounts
    ensures forall row :: row in AccountList(accounts[id := accounts[id].(isActive := false)], entries, owner) ==> row.id != id
    ensures AllEntries(accounts[id := accounts[id].(isActive := false)], entries, owner) == AllEntries(accounts, entries, owner)
  {
    var accounts' := accounts[id := accounts[id].(isActive := false)];
    assert forall e :: AccountOf(accounts', e) == AccountOf(accounts, e);
    var rows' := set k | k in entries && entries[k].createdBy == owner :: Populate(accounts', EntryRow(k, entries[k]));
    var rows := set k | k in entries && entries[k].createdBy == owner :: Populate(accounts, EntryRow(k, entries[k]));
    assert rows' == rows;
  }

  /** In a consistent ledger every entry's account exists, so every join of
      `getAllEntries` and `getEntryById` finds the account the entry names. */
  lemma JoinsResolve(accounts: map<AccountId, Account>, entries: map<EntryId, Entry>, nextId: nat, owner: UserId)
    requires Consistent(accounts, entries, nextId)
    ensures forall p :: p in AllEntries(accounts, entries, owner) ==>
              p.account.Some? && p.account.value.id == p.entry.accountId &&
              p.account.value.accountName == accounts[p.entry.accountId].accountName &&
              accounts[p.entry.accountId].createdBy == owner
    ensures forall id :: EntryById(accounts, entries, owner, id).status == Ok ==>
              EntryById(accounts, entries, owner, id).data.value.account.Some?
  {
  }
}
