/** The balance ledger: the balance derived from recharges and completed
    debits, the recharge handler that re-materialises it, and the daily
    limit setter. (backend/src/index.js) */
module Balance {
  import opened Outcomes
  import opened Schema

  /** `COALESCE(SUM(amount), 0) FROM recharges WHERE student_id = id`:
      zero when the card has no recharge row. */
  function RechargeTotal(rs: seq<Recharge>, id: nat): (r: int)
    ensures (forall j :: 0 <= j < |rs| ==> rs[j].studentId != id) ==> r == 0
  {
    if |rs| == 0 then 0
    else RechargeTotal(rs[..|rs| - 1], id) + (if rs[|rs| - 1].studentId == id then rs[|rs| - 1].amount else 0)
  }

  /** `COALESCE(SUM(amount), 0) FROM transactions WHERE student_id = id
      AND status = 'completed'`: zero when the card has no completed debit. */
  function SpentTotal(ts: seq<Txn>, id: nat): (r: int)
    ensures (forall j :: 0 <= j < |ts| ==> !(ts[j].studentId == id && ts[j].status == "completed")) ==> r == 0
  {
    if |ts| == 0 then 0
    else SpentTotal(ts[..|ts| - 1], id)
         + (if ts[|ts| - 1].studentId == id && ts[|ts| - 1].status == "completed" then ts[|ts| - 1].amount else 0)
  }

  /** `GET /api/students/:studentId/balance`: recharges minus completed
      debits; a card with no ledger rows has balance 0. */
  function DerivedBalance(db: Db, id: nat): (r: int)
    ensures (forall j :: 0 <= j < |db.recharges| ==> db.recharges[j].studentId != id)
            && (forall j :: 0 <= j < |db.transactions| ==> db.transactions[j].studentId != id)
      ==> r == 0
  {
    RechargeTotal(db.recharges, id) - SpentTotal(db.transactions, id)
  }

  /** Only completed debits count: recording a debit for card `id` lowers
      its balance by the amount when its status is `completed` and leaves
      the balance alone otherwise; no other card's balance moves. */
  lemma DebitCountsOnlyWhenCompleted(db: Db, t: Txn, id: nat)
    ensures DerivedBalance(db.(transactions := db.transactions + [t]), id)
      == DerivedBalance(db, id) - (if t.studentId == id && t.status == "completed" then t.amount else 0)
  {
    assert (db.transactions + [t])[..|db.transactions|] == db.transactions;
  }

  /** Both stored copies of card `id`'s balance equal the ledger's. */
  predicate BalanceMaterialized(db: Db, id: nat) {
    && id in db.accounts
    && db.accounts[id] == DerivedBalance(db, id)
    && forall i :: 0 <= i < |db.students| && db.students[i].id == id ==> db.students[i].balance == DerivedBalance(db, id)
  }

  lemma RechargeTotalAppend(rs: seq<Recharge>, x: Recharge, id: nat)
    ensures RechargeTotal(rs + [x], id) == RechargeTotal(rs, id) + (if x.studentId == id then x.amount else 0)
  {
    assert (rs + [x])[..|rs|] == rs;
  }

  /** `UPDATE students SET balance = b WHERE student_id = id`. */
  function SetBalance(rows: seq<Student>, id: nat, b: int): (r: seq<Student>)
    ensures |r| == |rows|
    ensures forall i :: 0 <= i < |rows| ==> r[i] == if rows[i].id == id then rows[i].(balance := b) else rows[i]
  {
    seq(|rows|, i requires 0 <= i < |rows| => if rows[i].id == id then rows[i].(balance := b) else rows[i])
  }

  /** The recharge's three writes: the `INSERT INTO recharges` and the
      two `UPDATE … SET balance` statements. */
  function WriteRecharge(db: Db, row: Schema.Recharge, newBalance: int): Db {
    db.(recharges := db.recharges + [row],
        students := SetBalance(db.students, row.studentId, newBalance),
        accounts := db.accounts[row.studentId := newBalance])
  }

  /** `POST /api/recharge` (the first registration): the join of the card
      row with its account row must exist; the new balance is the ledger
      balance plus `amount`; one recharge row is appended and both balance
      columns take the new balance. The handler checks nothing about
      `amount` itself. */
  function ApplyRecharge(db: Db, id: nat, amount: int, rechargeType: string, notes: string,
                         actor: nat, today: int): (r: Result<Db>)
    ensures r.Err? <==> FindStudent(db.students, id).None? || id !in db.accounts
    ensures r.Err? ==> r.error == NotFound
    ensures r.Ok? ==>
      && r.value.recharges == db.recharges + [Schema.Recharge(id, amount, rechargeType, notes, actor, today)]
      && r.value.transactions == db.transactions
      && DerivedBalance(r.value, id) == DerivedBalance(db, id) + amount
      && BalanceMaterialized(r.value, id)
      && r.value.accounts.Keys == db.accounts.Keys
      && (forall k :: k in db.accounts && k != id ==> r.value.accounts[k] == db.accounts[k])
      && |r.value.students| == |db.students|
      && (forall i :: 0 <= i < |db.students| && db.students[i].id != id ==> r.value.students[i] == db.students[i])
      && (forall i :: 0 <= i < |db.students| && db.students[i].id == id ==>
            r.value.students[i] == db.students[i].(balance := DerivedBalance(r.value, id)))
      && r.value.(students := db.students, accounts := db.accounts, recharges := db.recharges) == db
  {
    if FindStudent(db.students, id).None? || id !in db.accounts then Err(NotFound)
    else
      var newBalance := DerivedBalance(db, id) + amount;
      var row := Schema.Recharge(id, amount, rechargeType, notes, actor, today);
      RechargeTotalAppend(db.recharges, row, id);
      Ok(db.(recharges := db.recharges + [row],
             students := SetBalance(db.students, id, newBalance),
             accounts := db.accounts[id := newBalance]))
  }

  /** The recharge with the new balance taken from the stored account
      balance instead of the ledger rows that are left, so that rows
      deleted by the retention purge still count. It keeps a materialised
      balance materialised. */
  function ApplyRechargeStored(db: Db, id: nat, amount: int, rechargeType: string, notes: string,
                               actor: nat, today: int): (r: Result<Db>)
    ensures r.Err? <==> FindStudent(db.students, id).None? || id !in db.accounts
    ensures r.Err? ==> r.error == NotFound
    ensures r.Ok? ==> id in r.value.accounts && r.value.accounts[id] == db.accounts[id] + amount
    ensures r.Ok? ==> |r.value.students| == |db.students|
    ensures r.Ok? ==> forall i :: 0 <= i < |db.students| && db.students[i].id == id ==>
                        r.value.students[i].balance == db.accounts[id] + amount
    ensures r.Ok? ==> DerivedBalance(r.value, id) == DerivedBalance(db, id) + amount
    ensures r.Ok? && BalanceMaterialized(db, id) ==> BalanceMaterialized(r.value, id)
  {
    if FindStudent(db.students, id).None? || id !in db.accounts then Err(NotFound)
    else
      var row := Schema.Recharge(id, amount, rechargeType, notes, actor, today);
      RechargeTotalAppend(db.recharges, row, id);
      Ok(WriteRecharge(db, row, db.accounts[id] + amount))
  }

  /** Wherever the stored balance is materialised, the corrected recharge
      is the route's handler. */
  lemma StoredRechargeAgrees(db: Db, id: nat, amount: int, rechargeType: string, notes: string,
                             actor: nat, today: int)
    requires BalanceMaterialized(db, id)
    ensures ApplyRechargeStored(db, id, amount, rechargeType, notes, actor, today)
         == ApplyRecharge(db, id, amount, rechargeType, notes, actor, today)
  {
  }

  /** A recharge of one card leaves every other card's ledger balance and
      stored balances as they were, so their materialisation survives. */
  lemma RechargeKeepsOtherBalances(db: Db, id: nat, amount: int, rechargeType: string, notes: string,
                                   actor: nat, today: int, other: nat)
    requires other != id
    requires ApplyRecharge(db, id, amount, rechargeType, notes, actor, today).Ok?
    ensures var db' := ApplyRecharge(db, id, amount, rechargeType, notes, actor, today).value;
      DerivedBalance(db', other) == DerivedBalance(db, other)
      && (BalanceMaterialized(db, other) ==> BalanceMaterialized(db', other))
  {
    var row := Schema.Recharge(id, amount, rechargeType, notes, actor, today);
    RechargeTotalAppend(db.recharges, row, other);
  }

  /** `UPDATE students SET daily_limit = limit WHERE student_id = id`. */
  function SetLimit(rows: seq<Student>, id: nat, limit: Option<int>): (r: seq<Student>)
    ensures |r| == |rows|
    ensures forall i :: 0 <= i < |rows| ==> r[i] == if rows[i].id == id then rows[i].(dailyLimit := limit) else rows[i]
  {
    seq(|rows|, i requires 0 <= i < |rows| => if rows[i].id == id then rows[i].(dailyLimit := limit) else rows[i])
  }

  /** `POST /api/students/:id/daily-limit` (the first registration): the
      `UPDATE … RETURNING` must hit a row; no history row is written and
      the value is not checked. */
  function SetDailyLimit(db: Db, id: nat, limit: Option<int>): (r: Result<Db>)
    ensures r.Err? <==> FindStudent(db.students, id).None?
    ensures r.Err? ==> r.error == NotFound
    ensures r.Ok? ==>
      && |r.value.students| == |db.students|
      && (forall i :: 0 <= i < |db.students| ==>
            r.value.students[i].dailyLimit == (if db.students[i].id == id then limit else db.students[i].dailyLimit)
            && r.value.students[i].(dailyLimit := db.students[i].dailyLimit) == db.students[i])
      && r.value.(students := db.students) == db
  {
    if FindStudent(db.students, id).None? then Err(NotFound)
    else Ok(db.(students := SetLimit(db.students, id, limit)))
  }
}
