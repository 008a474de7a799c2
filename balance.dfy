/** The balance rule: the signed delta each entry contributes, the balance
    recomputed from scratch over an account's entries, and how that sum moves
    when one entry is added, rewritten or removed. */
module BalanceEngine {
  import opened Common
  import opened AccountModel
  import opened EntryModel

  /** `given` adds the amount, `receive` subtracts it, and any other type
      string contributes nothing. */
  function Delta(entryType: string, amount: int): (d: int)
    ensures !IsEntryType(entryType) ==> d == 0
    ensures IsEntryType(entryType) ==> Abs(d) == Abs(amount)
    ensures amount > 0 ==> (d > 0 <==> entryType == "given") && (d < 0 <==> entryType == "receive")
  {
    if entryType == "given" then amount
    else if entryType == "receive" then -amount
    else 0
  }

  /** The balance with the delta of `entryType` and `amount` taken back out. */
  function ReversedDelta(balance: int, entryType: string, amount: int): int {
    balance - Delta(entryType, amount)
  }

  function EntryDelta(e: Entry): int {
    Delta(e.entryType, e.amount)
  }

  function Amount(e: Entry): int {
    e.amount
  }

  /** `entryModel.find({ accountId })`: every entry of the account, whoever recorded it. */
  function AccountEntryIds(entries: map<EntryId, Entry>, accountId: AccountId): set<EntryId> {
    set id | id in entries && entries[id].accountId == accountId
  }

  /** The entries among `ids` whose type is exactly `t`. */
  function IdsOfType(entries: map<EntryId, Entry>, ids: set<EntryId>, t: string): set<EntryId> {
    set id | id in ids && id in entries && entries[id].entryType == t
  }

  /** The sum of `f` over the entries `ids`, taken in no particular order. */
  ghost function SumOver(entries: map<EntryId, Entry>, ids: set<EntryId>, f: Entry -> int): int
    requires ids <= entries.Keys
    decreases ids
  {
    if ids == {} then 0
    else
      var id :| id in ids;
      f(entries[id]) + SumOver(entries, ids - {id}, f)
  }

  /** The balance of an account recomputed from its entries. */
  ghost function Balance(entries: map<EntryId, Entry>, accountId: AccountId): int {
    SumOver(entries, AccountEntryIds(entries, accountId), EntryDelta)
  }

  /** The sum does not depend on which entry is taken first. */
  lemma {:induction false} SumOverPick(entries: map<EntryId, Entry>, ids: set<EntryId>, f: Entry -> int, k: EntryId)
    requires ids <= entries.Keys && k in ids
    ensures SumOver(entries, ids, f) == f(entries[k]) + SumOver(entries, ids - {k}, f)
    decreases ids
  {
    var j :| j in ids && SumOver(entries, ids, f) == f(entries[j]) + SumOver(entries, ids - {j}, f);
    if j != k {
      SumOverPick(entries, ids - {j}, f, k);
      SumOverPick(entries, ids - {k}, f, j);
      assert ids - {j} - {k} == ids - {k} - {j};
    }
  }

  /** The sum over `ids` depends only on the entries named by `ids`. */
  lemma {:induction false} SumOverFrame(m1: map<EntryId, Entry>, m2: map<EntryId, Entry>, ids: set<EntryId>, f: Entry -> int)
    requires ids <= m1.Keys && ids <= m2.Keys
    requires forall id :: id in ids ==> m1[id] == m2[id]
    ensures SumOver(m1, ids, f) == SumOver(m2, ids, f)
    decreases ids
  {
    if ids != {} {
      var k :| k in ids && SumOver(m1, ids, f) == f(m1[k]) + SumOver(m1, ids - {k}, f);
      SumOverFrame(m1, m2, ids - {k}, f);
      SumOverPick(m2, ids, f, k);
    }
  }

  /** The signed sum is the given amounts minus the received amounts; entries of
      any other type count for nothing. */
  lemma {:induction false} SignedSumSplits(entries: map<EntryId, Entry>, ids: set<EntryId>)
    requires ids <= entries.Keys
    ensures SumOver(entries, ids, EntryDelta)
         == SumOver(entries, IdsOfType(entries, ids, "given"), Amount)
          - SumOver(entries, IdsOfType(entries, ids, "receive"), Amount)
    decreases ids
  {
    if ids != {} {
      var k :| k in ids && SumOver(entries, ids, EntryDelta) == EntryDelta(entries[k]) + SumOver(entries, ids - {k}, EntryDelta);
      SignedSumSplits(entries, ids - {k});
      var given, receive := IdsOfType(entries, ids, "given"), IdsOfType(entries, ids, "receive");
      assert IdsOfType(entries, ids - {k}, "given") == given - {k};
      assert IdsOfType(entries, ids - {k}, "receive") == receive - {k};
      if k in given {
        SumOverPick(entries, given, Amount, k);
        assert receive - {k} == receive;
      } else if k in receive {
        SumOverPick(entries, receive, Amount, k);
        assert given - {k} == given;
      } else {
        assert given - {k} == given && receive - {k} == receive;
      }
    }
  }

  /** What `getAccountBalance` computes: the sum of the given amounts minus the
      sum of the received amounts over all entries of the account. */
  lemma BalanceIsGivenMinusReceived(entries: map<EntryId, Entry>, accountId: AccountId)
    ensures Balance(entries, accountId)
         == SumOver(entries, IdsOfType(entries, AccountEntryIds(entries, accountId), "given"), Amount)
          - SumOver(entries, IdsOfType(entries, AccountEntryIds(entries, accountId), "receive"), Amount)
  {
    SignedSumSplits(entries, AccountEntryIds(entries, accountId));
  }

  /** An account no entry refers to has balance 0. */
  lemma BalanceWithoutEntries(entries: map<EntryId, Entry>, accountId: AccountId)
    requires forall id :: id in entries ==> entries[id].accountId != accountId
    ensures Balance(entries, accountId) == 0
  {
    assert AccountEntryIds(entries, accountId) == {};
  }

  /** Adding entry `e` under a fresh id moves the balance of its account by the
      entry's delta and leaves every other balance as it was. */
  lemma BalanceAfterInsert(entries: map<EntryId, Entry>, id: EntryId, e: Entry, accountId: AccountId)
    requires id !in entries
    ensures Balance(entries[id := e], accountId)
         == Balance(entries, accountId) + (if e.accountId == accountId then EntryDelta(e) else 0)
  {
    var after := entries[id := e];
    var ids := AccountEntryIds(entries, accountId);
    SumOverFrame(entries, after, ids, EntryDelta);
    if e.accountId == accountId {
      assert AccountEntryIds(after, accountId) == ids + {id};
      SumOverPick(after, ids + {id}, EntryDelta, id);
      assert ids + {id} - {id} == ids;
    } else {
      assert AccountEntryIds(after, accountId) == ids;
    }
  }

  /** Removing an entry takes its delta back out of its account's balance and
      leaves every other balance as it was. */
  lemma BalanceAfterRemove(entries: map<EntryId, Entry>, id: EntryId, accountId: AccountId)
    requires id in entries
    ensures Balance(entries - {id}, accountId)
         == Balance(entries, accountId) - (if entries[id].accountId == accountId then EntryDelta(entries[id]) else 0)
  {
    var after := entries - {id};
    var ids := AccountEntryIds(entries, accountId);
    var idsAfter := AccountEntryIds(after, accountId);
    SumOverFrame(after, entries, idsAfter, EntryDelta);
    if entries[id].accountId == accountId {
      assert idsAfter == ids - {id};
      SumOverPick(entries, ids, EntryDelta, id);
    } else {
      assert idsAfter == ids;
    }
  }

  /** Rewriting an entry in place, under the same account, replaces its old
      delta by its new one in that account's balance. */
  lemma BalanceAfterReplace(entries: map<EntryId, Entry>, id: EntryId, e: Entry, accountId: AccountId)
    requires id in entries && e.accountId == entries[id].accountId
    ensures Balance(entries[id := e], accountId)
         == Balance(entries, accountId)
            - (if e.accountId == accountId then EntryDelta(entries[id]) else 0)
            + (if e.accountId == accountId then EntryDelta(e) else 0)
  {
    BalanceAfterRemove(entries, id, accountId);
    BalanceAfterInsert(entries - {id}, id, e, accountId);
    assert (entries - {id})[id := e] == entries[id := e];
  }

  /** The `if (type === 'given') … else if (type === 'receive') …` step that
      `createEntry` and `updateEntry` apply to the balance they read. */
  method ApplyDelta(balance: int, entryType: string, amount: int) returns (newBalance: int)
    ensures newBalance == balance + Delta(entryType, amount)
    ensures ReversedDelta(newBalance, entryType, amount) == balance
  {
    newBalance := balance;
    if entryType == "given" {
      newBalance := newBalance + amount;
    } else if entryType == "receive" {
      newBalance := newBalance - amount;
    }
  }

  /** The mirror-image step `updateEntry` and `deleteEntry` use to take a stored
      entry back out of the balance. */
  method ReverseDelta(balance: int, entryType: string, amount: int) returns (newBalance: int)
    ensures newBalance == ReversedDelta(balance, entryType, amount)
    ensures newBalance + Delta(entryType, amount) == balance
  {
    newBalance := balance;
    if entryType == "given" {
      newBalance := newBalance - amount;
    } else if entryType == "receive" {
      newBalance := newBalance + amount;
    }
  }

  /** The `forEach` of `getAccountBalance`: each entry of the account, in
      whatever order the store returns them, adjusts a running total that starts
      at 0. */
  method RecomputeBalance(entries: map<EntryId, Entry>, accountId: AccountId) returns (balance: int)
    ensures balance == Balance(entries, accountId)
  {
    var ids := set id | id in entries && entries[id].accountId == accountId;
    var remaining := ids;
    balance := 0;
    while remaining != {}
      invariant remaining <= ids
      invariant balance + SumOver(entries, remaining, EntryDelta) == SumOver(entries, ids, EntryDelta)
      decreases remaining
    {
      var id :| id in remaining;
      SumOverPick(entries, remaining, EntryDelta, id);
      var entry := entries[id];
      if entry.entryType == "given" {
        balance := balance + entry.amount;
      } else if entry.entryType == "receive" {
        balance := balance - entry.amount;
      }
      remaining := remaining - {id};
    }
  }
}
