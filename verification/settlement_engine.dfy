/** The settlement state machine: a store asks for part of its pending
    earnings (`requested`), may amend the amount while still requested, and
    the bank pays it off in one or more payments (`pending`, then
    `completed`). An administrator can also open a settlement directly in
    `pending`. Every payment and creation is written to the settlement log.
    (backend/src/index.js) */
module SettlementEngine {
  import opened Outcomes
  import opened Strings
  import opened Schema

  const Requested := "requested"
  const Pending := "pending"
  const Completed := "completed"

  /** What every settlement row should satisfy: the paid part lies between
      0 and the total, `pending` is the unpaid rest, nothing has been paid
      on a request, and a completed settlement is paid in full. Status
      tests go through `toLowerCase`, as the handlers' do. */
  predicate SettlementValid(s: Settlement) {
    && 0 <= s.settled <= s.total
    && s.pending == s.total - s.settled
    && (ToLower(s.status) == Requested ==> s.settled == 0)
    && (ToLower(s.status) == Completed ==> s.settled == s.total)
  }

  /** Sum of the `payment` log entries of settlement `id`. */
  function PaidTotal(logs: seq<SettlementLog>, id: nat): int {
    if |logs| == 0 then 0
    else PaidTotal(logs[1..], id) + (if logs[0].settlementId == id && logs[0].action == "payment" then logs[0].amount else 0)
  }

  /** The settlement tables together: every row valid, ids below the
      counter, every log entry attached to an existing settlement, and each
      settlement's paid amount accounted for by its payment log entries. */
  predicate LedgerValid(db: Db) {
    && (forall id :: id in db.settlements ==> SettlementValid(db.settlements[id]))
    && (forall id :: id in db.settlements ==> id < db.nextSettlementId)
    && (forall i :: 0 <= i < |db.logs| ==> db.logs[i].settlementId in db.settlements)
    && (forall id :: id in db.settlements ==> PaidTotal(db.logs, id) == db.settlements[id].settled)
  }

  /** Appending one entry adds its amount when it is a payment of `id`. */
  lemma {:induction false} PaidTotalAppend(logs: seq<SettlementLog>, x: SettlementLog, id: nat)
    ensures PaidTotal(logs + [x], id)
      == PaidTotal(logs, id) + (if x.settlementId == id && x.action == "payment" then x.amount else 0)
  {
    if |logs| == 0 {
      assert logs + [x] == [x];
      assert PaidTotal([x], id) == PaidTotal([x][1..], id) + (if x.settlementId == id && x.action == "payment" then x.amount else 0);
    } else {
      assert (logs + [x])[1..] == logs[1..] + [x];
      PaidTotalAppend(logs[1..], x, id);
    }
  }

  /** A settlement no log entry refers to has paid nothing. */
  lemma {:induction false} PaidTotalUnreferenced(logs: seq<SettlementLog>, id: nat)
    requires forall i :: 0 <= i < |logs| ==> logs[i].settlementId != id
    ensures PaidTotal(logs, id) == 0
  {
    if |logs| > 0 {
      PaidTotalUnreferenced(logs[1..], id);
    }
  }

  lemma LowerLiterals()
    ensures ToLower(Requested) == Requested
    ensures ToLower(Pending) == Pending
    ensures ToLower(Completed) == Completed
  {
    assert ToLower(Requested) == Requested;
    assert ToLower(Pending) == Pending;
    assert ToLower(Completed) == Completed;
  }

  // ---------------------------------------------------------------- request

  /** The guards of `POST /api/settlements/request`: a truthy store id and a
      positive amount, a store with a `store_settlements` row, and an amount
      no larger than the store's pending earnings. */
  predicate RequestAdmissible(db: Db, storeId: nat, amount: int) {
    && storeId != 0 && amount > 0
    && storeId in db.stores && storeId in db.storeSettlements
    && amount <= db.storeSettlements[storeId].pending
  }

  /** `POST /api/settlements/request`: opens a `requested` settlement for
      `amount` under the next serial id. The store's pending earnings are
      not reduced. */
  function RequestSettlement(db: Db, storeId: nat, amount: int, now: int): (r: Result<Db>)
    ensures r.Ok? <==> RequestAdmissible(db, storeId, amount)
    ensures (storeId == 0 || amount <= 0) ==> r == Err(InvalidParameters)
    ensures storeId != 0 && amount > 0 && (storeId !in db.stores || storeId !in db.storeSettlements)
      ==> r == Err(NotFound)
    ensures storeId != 0 && amount > 0 && storeId in db.stores && storeId in db.storeSettlements
            && amount > db.storeSettlements[storeId].pending
      ==> r == Err(ExceedsPending(db.storeSettlements[storeId].pending))
    ensures r.Ok? ==>
      && r.value.settlements
         == db.settlements[db.nextSettlementId := Settlement(storeId, amount, 0, amount, Requested, None, now)]
      && r.value.nextSettlementId == db.nextSettlementId + 1
      && r.value.storeSettlements == db.storeSettlements
      && r.value.logs == db.logs
      && r.value.(settlements := db.settlements, nextSettlementId := db.nextSettlementId) == db
  {
    if storeId == 0 || amount <= 0 then Err(InvalidParameters)
    else if storeId !in db.stores || storeId !in db.storeSettlements then Err(NotFound)
    else
      var pending := db.storeSettlements[storeId].pending;
      if amount > pending then Err(ExceedsPending(pending))
      else
        Ok(db.(settlements := db.settlements[db.nextSettlementId := Settlement(storeId, amount, 0, amount, Requested, None, now)],
               nextSettlementId := db.nextSettlementId + 1))
  }

  /** A request keeps the settlement tables valid, and its id is fresh. */
  lemma RequestKeepsLedgerValid(db: Db, storeId: nat, amount: int, now: int)
    requires LedgerValid(db)
    requires RequestSettlement(db, storeId, amount, now).Ok?
    ensures db.nextSettlementId !in db.settlements
    ensures LedgerValid(RequestSettlement(db, storeId, amount, now).value)
  {
    LowerLiterals();
    var id := db.nextSettlementId;
    assert forall i :: 0 <= i < |db.logs| ==> db.logs[i].settlementId != id;
    PaidTotalUnreferenced(db.logs, id);
  }

  /** Requests do not earmark the store's earnings: right after a request
      for the whole pending amount, a second request for the same amount is
      accepted too, so the open requests can add up to more than the store
      is owed. */
  lemma RequestsDoNotEarmark(db: Db, storeId: nat, amount: int, now: int)
    requires RequestAdmissible(db, storeId, amount)
    ensures var db1 := RequestSettlement(db, storeId, amount, now).value;
      && RequestSettlement(db1, storeId, amount, now).Ok?
      && db1.storeSettlements[storeId].pending == db.storeSettlements[storeId].pending
  {
  }

  // ------------------------------------------------------------------ amend

  /** `PUT /api/settlements/:id/amount`: a positive amount; the settlement
      joined with its store's `store_settlements` row; a status that reads
      `requested` in lower case; then the two ceilings, the original total
      plus the store's pending earnings and the pending earnings alone. Only
      the total and the pending part of that one settlement change. */
  function AmendSettlement(db: Db, id: nat, amount: int): (r: Result<Db>)
    ensures amount <= 0 ==> r == Err(InvalidAmount)
    ensures amount > 0 && (id !in db.settlements || db.settlements[id].storeId !in db.storeSettlements)
      ==> r == Err(NotFound)
    ensures amount > 0 && id in db.settlements && db.settlements[id].storeId in db.storeSettlements
            && ToLower(db.settlements[id].status) != Requested
      ==> r == Err(InvalidState)
    ensures r.Ok? ==>
      var s := db.settlements[id];
      var storePending := db.storeSettlements[s.storeId].pending;
      && 0 < amount <= storePending
      && amount <= s.total + storePending
      && ToLower(s.status) == Requested
      && r.value.settlements == db.settlements[id := s.(total := amount, pending := amount)]
      && r.value.(settlements := db.settlements) == db
  {
    if amount <= 0 then Err(InvalidAmount)
    else if id !in db.settlements || db.settlements[id].storeId !in db.storeSettlements then Err(NotFound)
    else
      var s := db.settlements[id];
      var storePending := db.storeSettlements[s.storeId].pending;
      if ToLower(s.status) != Requested then Err(InvalidState)
      else if amount > s.total + storePending then Err(ExceedsMaxAllowed(s.total + storePending))
      else if amount > storePending then Err(ExceedsStorePending(storePending))
      else Ok(db.(settlements := db.settlements[id := s.(total := amount, pending := amount)]))
  }

  /** On a valid settlement the first ceiling never decides anything: an
      amendment of a requested settlement is accepted exactly when the
      amount is positive and within the store's pending earnings. */
  lemma AmendCeilingSubsumed(db: Db, id: nat, amount: int)
    requires id in db.settlements && SettlementValid(db.settlements[id])
    requires db.settlements[id].storeId in db.storeSettlements
    requires ToLower(db.settlements[id].status) == Requested
    ensures AmendSettlement(db, id, amount).Ok?
      <==> 0 < amount <= db.storeSettlements[db.settlements[id].storeId].pending
  {
  }

  lemma AmendKeepsLedgerValid(db: Db, id: nat, amount: int)
    requires LedgerValid(db)
    requires AmendSettlement(db, id, amount).Ok?
    ensures LedgerValid(AmendSettlement(db, id, amount).value)
  {
  }

  // -------------------------------------------------------------------- pay

  /** `POST /api/settlements/:id/pay`, as written: the settlement must exist
      and not read `completed`; the amount may not exceed the unpaid rest.
      The paid part grows by `amount`, the status becomes `completed` once
      the paid part reaches the total and `pending` before, and one payment
      log entry is appended. Nothing checks that `amount` is positive. */
  function Pay(db: Db, id: nat, amount: int, actor: nat, now: int): (r: Result<Db>)
    ensures r.Ok? <==> id in db.settlements && ToLower(db.settlements[id].status) != Completed
                       && amount <= db.settlements[id].total - db.settlements[id].settled
    ensures id !in db.settlements ==> r == Err(NotFound)
    ensures id in db.settlements && ToLower(db.settlements[id].status) == Completed ==> r == Err(AlreadyCompleted)
    ensures id in db.settlements && ToLower(db.settlements[id].status) != Completed
            && amount > db.settlements[id].total - db.settlements[id].settled
      ==> r == Err(ExceedsRemaining)
    ensures r.Ok? ==> id in db.settlements && id in r.value.settlements
    ensures r.Ok? ==>
      var s := db.settlements[id];
      var s' := r.value.settlements[id];
      && ToLower(s.status) != Completed
      && s'.settled == s.settled + amount <= s.total
      && s'.pending == s.total - s'.settled
      && (s'.status == Completed <==> s'.settled >= s.total)
      && (s'.status != Completed ==> s'.status == Pending)
      && s' == s.(settled := s'.settled, pending := s'.pending, status := s'.status)
      && r.value.settlements.Keys == db.settlements.Keys
      && (forall k :: k in db.settlements && k != id ==> r.value.settlements[k] == db.settlements[k])
      && r.value.logs == db.logs + [SettlementLog(id, "payment", amount, "Payment processed", actor, now)]
      && r.value.(settlements := db.settlements, logs := db.logs) == db
  {
    if id !in db.settlements then Err(NotFound)
    else
      var s := db.settlements[id];
      if ToLower(s.status) == Completed then Err(AlreadyCompleted)
      else if amount > s.total - s.settled then Err(ExceedsRemaining)
      else
        var settled := s.settled + amount;
        var status := if settled >= s.total then Completed else Pending;
        Ok(db.(settlements := db.settlements[id := s.(settled := settled, pending := s.total - settled, status := status)],
               logs := db.logs + [SettlementLog(id, "payment", amount, "Payment processed", actor, now)]))
  }

  /** As written, a negative payment on an open settlement is accepted: it
      reduces the paid part, and once that drops below zero the row is no
      longer valid. E.g. total 100, nothing paid, a payment of -50 leaves
      `settled` at -50 and `pending` at 150. */
  lemma PayAcceptsNegativeAmount(db: Db, id: nat, amount: int, actor: nat, now: int)
    requires id in db.settlements && SettlementValid(db.settlements[id])
    requires ToLower(db.settlements[id].status) != Completed
    requires amount < 0
    ensures Pay(db, id, amount, actor, now).Ok?
    ensures Pay(db, id, amount, actor, now).value.settlements[id].settled < db.settlements[id].settled
    ensures amount < -db.settlements[id].settled
      ==> !SettlementValid(Pay(db, id, amount, actor, now).value.settlements[id])
  {
  }

  /** The payment handler with the guard it evidently lacks: a payment must
      be positive, checked before anything else, as the amendment handler
      checks its amount. */
  function PayChecked(db: Db, id: nat, amount: int, actor: nat, now: int): (r: Result<Db>)
    ensures amount <= 0 ==> r == Err(InvalidAmount)
    ensures amount > 0 ==> r == Pay(db, id, amount, actor, now)
    ensures r.Ok? ==> db.settlements[id].settled < r.value.settlements[id].settled
  {
    if amount <= 0 then Err(InvalidAmount) else Pay(db, id, amount, actor, now)
  }

  /** With the guard, a payment keeps the settlement tables valid: the paid
      part stays within 0..total and equals the sum of its payment entries. */
  lemma PayCheckedKeepsLedgerValid(db: Db, id: nat, amount: int, actor: nat, now: int)
    requires LedgerValid(db)
    requires PayChecked(db, id, amount, actor, now).Ok?
    ensures LedgerValid(PayChecked(db, id, amount, actor, now).value)
  {
    LowerLiterals();
    var db' := PayChecked(db, id, amount, actor, now).value;
    var entry := SettlementLog(id, "payment", amount, "Payment processed", actor, now);
    forall k | k in db'.settlements
      ensures PaidTotal(db'.logs, k) == db'.settlements[k].settled
    {
      PaidTotalAppend(db.logs, entry, k);
    }
  }

  /** Paying the whole unpaid rest completes a settlement, and a completed
      settlement accepts no further payment. */
  lemma PayInFullCompletes(db: Db, id: nat, actor: nat, now: int)
    requires id in db.settlements && ToLower(db.settlements[id].status) != Completed
    ensures var s := db.settlements[id];
      var r := Pay(db, id, s.total - s.settled, actor, now);
      && r.Ok? && r.value.settlements[id].status == Completed
      && Pay(r.value, id, 1, actor, now) == Err(AlreadyCompleted)
  {
    LowerLiterals();
  }

  // ----------------------------------------------------------------- create

  /** `POST /api/settlements`: the administrator opens a `pending`
      settlement for `total` with nothing paid, and logs a `create` entry
      for it. The handler validates neither the store nor the total. */
  function CreateSettlement(db: Db, storeId: nat, total: int, actor: nat, now: int): (r: Db)
    ensures r.settlements == db.settlements[db.nextSettlementId := Settlement(storeId, total, 0, total, Pending, Some(actor), now)]
    ensures r.nextSettlementId == db.nextSettlementId + 1
    ensures r.logs == db.logs + [SettlementLog(db.nextSettlementId, "create", total, "Settlement created", actor, now)]
    ensures r.(settlements := db.settlements, nextSettlementId := db.nextSettlementId, logs := db.logs) == db
  {
    var id := db.nextSettlementId;
    db.(settlements := db.settlements[id := Settlement(storeId, total, 0, total, Pending, Some(actor), now)],
        nextSettlementId := id + 1,
        logs := db.logs + [SettlementLog(id, "create", total, "Settlement created", actor, now)])
  }

  /** Creating keeps the tables valid when the total is not negative; the
      `create` entry is not a payment, so the new settlement has paid 0. */
  lemma CreateKeepsLedgerValid(db: Db, storeId: nat, total: int, actor: nat, now: int)
    requires LedgerValid(db)
    requires total >= 0
    ensures LedgerValid(CreateSettlement(db, storeId, total, actor, now))
  {
    LowerLiterals();
    var id := db.nextSettlementId;
    var db' := CreateSettlement(db, storeId, total, actor, now);
    var entry := SettlementLog(id, "create", total, "Settlement created", actor, now);
    assert forall i :: 0 <= i < |db.logs| ==> db.logs[i].settlementId != id;
    PaidTotalUnreferenced(db.logs, id);
    forall k | k in db'.settlements
      ensures PaidTotal(db'.logs, k) == db'.settlements[k].settled
    {
      PaidTotalAppend(db.logs, entry, k);
    }
  }
}
