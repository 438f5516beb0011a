/** `deleteOldData`: the nightly purge of rows older than the retention
    cutoff from the five transactional tables, in one transaction. The
    `cutoff` day stands for `NOW() - INTERVAL '6 months'`. Log entries go
    first because they refer to settlements; if a settlement that is due
    for deletion still has a recent log entry, the reference blocks the
    delete and the whole transaction is rolled back. (backend/src/index.js) */
module Retention {
  import opened Outcomes
  import opened Seqs
  import opened Schema
  import opened Balance
  import opened SettlementEngine

  /** A kept log entry that refers to a settlement due for deletion. */
  predicate BlockingLog(db: Db, l: SettlementLog, cutoff: int) {
    && l.logDate >= cutoff
    && l.settlementId in db.settlements
    && db.settlements[l.settlementId].createdAt < cutoff
  }

  predicate PurgeBlocked(db: Db, cutoff: int) {
    exists i :: 0 <= i < |db.logs| && BlockingLog(db, db.logs[i], cutoff)
  }

  function KeepSettlements(m: map<nat, Settlement>, cutoff: int): (r: map<nat, Settlement>)
    ensures forall k :: k in r <==> k in m && m[k].createdAt >= cutoff
    ensures forall k :: k in r ==> r[k] == m[k]
  {
    map k | k in m && m[k].createdAt >= cutoff :: m[k]
  }

  function KeepStoreSettlements(m: map<nat, StoreSettlement>, cutoff: int): (r: map<nat, StoreSettlement>)
    ensures forall k :: k in r <==> k in m && m[k].createdAt >= cutoff
    ensures forall k :: k in r ==> r[k] == m[k]
  {
    map k | k in m && m[k].createdAt >= cutoff :: m[k]
  }

  /** The row tests of the three `DELETE … WHERE date < cutoff` statements
      on sequence tables, negated: the rows that stay. */
  function RecentLog(cutoff: int): SettlementLog -> bool { (l: SettlementLog) => l.logDate >= cutoff }
  function RecentTxn(cutoff: int): Txn -> bool { (t: Txn) => t.createdAt >= cutoff }
  function RecentRecharge(cutoff: int): Recharge -> bool { (x: Recharge) => x.createdAt >= cutoff }

  /** The five tables with every row dated before `cutoff` deleted. */
  function Pruned(db: Db, cutoff: int): (r: Db)
    ensures forall x :: multiset(r.logs)[x] == if x.logDate >= cutoff then multiset(db.logs)[x] else 0
    ensures forall x :: multiset(r.transactions)[x] == if x.createdAt >= cutoff then multiset(db.transactions)[x] else 0
    ensures forall x :: multiset(r.recharges)[x] == if x.createdAt >= cutoff then multiset(db.recharges)[x] else 0
    ensures forall i :: 0 <= i < |r.logs| ==> r.logs[i].logDate >= cutoff
    ensures forall k :: k in r.settlements <==> k in db.settlements && db.settlements[k].createdAt >= cutoff
    ensures forall k :: k in r.settlements ==> r.settlements[k] == db.settlements[k]
    ensures forall k :: k in r.storeSettlements <==> k in db.storeSettlements && db.storeSettlements[k].createdAt >= cutoff
    ensures forall k :: k in r.storeSettlements ==> r.storeSettlements[k] == db.storeSettlements[k]
    ensures r.students == db.students && r.accounts == db.accounts && r.stores == db.stores
    ensures r.nextStudentId == db.nextStudentId && r.nextSettlementId == db.nextSettlementId
  {
    db.(logs := Filter(db.logs, RecentLog(cutoff)),
        settlements := KeepSettlements(db.settlements, cutoff),
        storeSettlements := KeepStoreSettlements(db.storeSettlements, cutoff),
        transactions := Filter(db.transactions, RecentTxn(cutoff)),
        recharges := Filter(db.recharges, RecentRecharge(cutoff)))
  }

  /** The purge is all or nothing: when no log entry that survives refers
      to a settlement that goes, every old row is deleted; otherwise nothing
      changes and the error is reported. Cards and accounts are never
      touched. */
  function Purge(db: Db, cutoff: int): (r: Result<Db>)
    ensures r.Err? <==> PurgeBlocked(db, cutoff)
    ensures r.Err? ==> r.error == ForeignKeyViolation
    ensures r.Ok? ==> r.value == Pruned(db, cutoff)
  {
    if PurgeBlocked(db, cutoff) then Err(ForeignKeyViolation) else Ok(Pruned(db, cutoff))
  }

  /** A second purge with the same cutoff finds nothing left to delete. */
  lemma PurgeIdempotent(db: Db, cutoff: int)
    requires Purge(db, cutoff).Ok?
    ensures Purge(Purge(db, cutoff).value, cutoff) == Purge(db, cutoff)
  {
    var db1 := Pruned(db, cutoff);
    PrunedIsFixpoint(db1, cutoff);
  }

  /** A store with no row dated before `cutoff` is what pruning leaves. */
  lemma PrunedIsFixpoint(db: Db, cutoff: int)
    requires forall i :: 0 <= i < |db.logs| ==> db.logs[i].logDate >= cutoff
    requires forall i :: 0 <= i < |db.transactions| ==> db.transactions[i].createdAt >= cutoff
    requires forall i :: 0 <= i < |db.recharges| ==> db.recharges[i].createdAt >= cutoff
    requires forall k :: k in db.settlements ==> db.settlements[k].createdAt >= cutoff
    requires forall k :: k in db.storeSettlements ==> db.storeSettlements[k].createdAt >= cutoff
    ensures Purge(db, cutoff) == Ok(db)
  {
    FilterAllKept(db.logs, RecentLog(cutoff));
    FilterAllKept(db.transactions, RecentTxn(cutoff));
    FilterAllKept(db.recharges, RecentRecharge(cutoff));
    KeepAllSettlements(db.settlements, cutoff);
    KeepAllStoreSettlements(db.storeSettlements, cutoff);
    assert !PurgeBlocked(db, cutoff);
  }

  lemma KeepAllSettlements(m: map<nat, Settlement>, cutoff: int)
    requires forall k :: k in m ==> m[k].createdAt >= cutoff
    ensures KeepSettlements(m, cutoff) == m
  {
    assert forall k :: k in KeepSettlements(m, cutoff) <==> k in m;
  }

  lemma KeepAllStoreSettlements(m: map<nat, StoreSettlement>, cutoff: int)
    requires forall k :: k in m ==> m[k].createdAt >= cutoff
    ensures KeepStoreSettlements(m, cutoff) == m
  {
    assert forall k :: k in KeepStoreSettlements(m, cutoff) <==> k in m;
  }

  /** A settlement opened before the cutoff that has had a payment since
      blocks every purge at that cutoff. */
  lemma RecentPaymentBlocksPurge(db: Db, id: nat, amount: int, actor: nat, now: int, cutoff: int)
    requires Pay(db, id, amount, actor, now).Ok?
    requires db.settlements[id].createdAt < cutoff <= now
    ensures Purge(Pay(db, id, amount, actor, now).value, cutoff) == Err(ForeignKeyViolation)
  {
    var db' := Pay(db, id, amount, actor, now).value;
    assert BlockingLog(db', db'.logs[|db'.logs| - 1], cutoff);
  }

  /** Log entries are never dated before the settlement they belong to. */
  predicate LogsAfterCreation(db: Db) {
    forall i :: 0 <= i < |db.logs| && db.logs[i].settlementId in db.settlements
      ==> db.logs[i].logDate >= db.settlements[db.logs[i].settlementId].createdAt
  }

  /** Dropping entries of other settlements leaves a settlement's paid sum. */
  lemma {:induction false} PaidTotalFilter(logs: seq<SettlementLog>, p: SettlementLog -> bool, id: nat)
    requires forall i :: 0 <= i < |logs| && logs[i].settlementId == id ==> p(logs[i])
    ensures PaidTotal(Filter(logs, p), id) == PaidTotal(logs, id)
  {
    if |logs| > 0 {
      PaidTotalFilter(logs[1..], p, id);
      var rest := Filter(logs[1..], p);
      if p(logs[0]) {
        assert ([logs[0]] + rest)[1..] == rest;
      }
    }
  }

  /** When log entries postdate their settlements, a successful purge keeps
      the settlement tables valid: a kept settlement keeps all of its log
      entries, so its paid amount is still accounted for. */
  lemma PurgeKeepsLedgerValid(db: Db, cutoff: int)
    requires LedgerValid(db) && LogsAfterCreation(db)
    requires Purge(db, cutoff).Ok?
    ensures LedgerValid(Purge(db, cutoff).value)
  {
    var db' := Purge(db, cutoff).value;
    var p := RecentLog(cutoff);
    assert db'.logs == Filter(db.logs, p);
    forall i | 0 <= i < |db'.logs|
      ensures db'.logs[i].settlementId in db'.settlements
    {
      var l := db'.logs[i];
      assert l in multiset(db'.logs);
      assert l in multiset(db.logs);
      assert !BlockingLog(db, l, cutoff);
    }
    forall id | id in db'.settlements
      ensures PaidTotal(db'.logs, id) == db'.settlements[id].settled
    {
      PaidTotalFilter(db.logs, p, id);
    }
  }

  // ----------------------------------------------------------- balances

  /** The purge deletes ledger rows but leaves both stored balances alone,
      so a card's balance stays materialised only if its ledger balance
      is unchanged by the deletion. */
  lemma PurgeKeepsStoredBalances(db: Db, cutoff: int, id: nat)
    requires Purge(db, cutoff).Ok?
    ensures Purge(db, cutoff).value.accounts == db.accounts
    ensures Purge(db, cutoff).value.students == db.students
    ensures BalanceMaterialized(db, id) ==>
      (BalanceMaterialized(Purge(db, cutoff).value, id) <==> DerivedBalance(Purge(db, cutoff).value, id) == DerivedBalance(db, id))
  {
  }

  /** As written, purging an old recharge breaks the stored = ledger
      balance of its card, and the next recharge, which re-derives the
      balance from the rows that are left, loses the purged amount: a card
      holding 500 from a recharge dated day 0 is purged at day 10 and then
      recharged with 100, and ends with 100 instead of 600. */
  lemma PurgeLosesOldRecharge()
    ensures var card := Student(1, 7, "", "", "", "710000", 10000, true, 500, None, 0, None);
      var db := Db([card], map[1 := 500], [Schema.Recharge(1, 500, "cash", "", 0, 0)], [], {}, map[], map[], [], 2, 1);
      && BalanceMaterialized(db, 1)
      && Purge(db, 10).Ok?
      && !BalanceMaterialized(Purge(db, 10).value, 1)
      && ApplyRecharge(Purge(db, 10).value, 1, 100, "cash", "", 0, 20).Ok?
      && ApplyRecharge(Purge(db, 10).value, 1, 100, "cash", "", 0, 20).value.accounts[1] == 100
  {
    var card := Student(1, 7, "", "", "", "710000", 10000, true, 500, None, 0, None);
    var x := Schema.Recharge(1, 500, "cash", "", 0, 0);
    var db := Db([card], map[1 := 500], [x], [], {}, map[], map[], [], 2, 1);
    assert RechargeTotal([x], 1) == 500 by {
      assert [x][..0] == [];
    }
    assert !PurgeBlocked(db, 10);
    var p := Pruned(db, 10);
    assert multiset(p.recharges)[x] == 0;
    assert p.recharges == [];
    assert DerivedBalance(p, 1) == 0;
  }

  /** With the recharge that adds to the stored balance, purging first
      loses nothing: on a materialised card, a recharge after the purge
      stores the balance the card had before the purge plus the amount. */
  lemma StoredRechargeSurvivesPurge(db: Db, cutoff: int, id: nat, amount: int, rechargeType: string,
                                    notes: string, actor: nat, today: int)
    requires BalanceMaterialized(db, id)
    requires Purge(db, cutoff).Ok?
    ensures var r := ApplyRechargeStored(Purge(db, cutoff).value, id, amount, rechargeType, notes, actor, today);
      && (r.Ok? <==> FindStudent(db.students, id).Some?)
      && (r.Ok? ==> r.value.accounts[id] == DerivedBalance(db, id) + amount)
      && (r.Ok? ==> forall i :: 0 <= i < |db.students| && db.students[i].id == id ==>
                      r.value.students[i].balance == DerivedBalance(db, id) + amount)
  {
    var p := Purge(db, cutoff).value;
    assert p.students == db.students && p.accounts == db.accounts;
  }
}
