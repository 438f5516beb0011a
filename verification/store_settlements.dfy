/** The store's settlement page: the "requested" total shown above the
    list, the guards on a new request and on an amendment, and the local
    list and total updates after the server accepts either.
    (store-frontend/src/pages/Settlements.js) */
module StoreSettlements {
  import opened Outcomes
  import opened Strings
  import opened Schema
  import opened SettlementEngine

  /** One entry of the list the page holds. */
  datatype SettlementRow = SettlementRow(id: nat, total: int, status: string)

  /** The sum of the totals of the entries whose status is exactly
      `requested` (a strict comparison, no case folding). */
  function RequestedSum(rows: seq<SettlementRow>): int {
    if |rows| == 0 then 0
    else (if rows[0].status == Requested then rows[0].total else 0) + RequestedSum(rows[1..])
  }

  /** The total shown is 0 when nothing is `requested`, and never negative
      when no entry has a negative total. */
  lemma {:induction false} RequestedSumBounds(rows: seq<SettlementRow>)
    ensures (forall i :: 0 <= i < |rows| ==> rows[i].status != Requested) ==> RequestedSum(rows) == 0
    ensures (forall i :: 0 <= i < |rows| ==> rows[i].total >= 0) ==> RequestedSum(rows) >= 0
  {
    if |rows| > 0 {
      RequestedSumBounds(rows[1..]);
    }
  }

  /** The `requested` sum without the entry `id`. */
  function RequestedSumExcept(rows: seq<SettlementRow>, id: nat): int {
    if |rows| == 0 then 0
    else (if rows[0].status == Requested && rows[0].id != id then rows[0].total else 0) + RequestedSumExcept(rows[1..], id)
  }

  // ---------------------------------------------------------------- request

  /** `handleSettlementRequest`'s guards: an amount, positive, and within
      the store's pending amount as last fetched. `None` is the empty field. */
  predicate RequestAllowed(amount: Option<int>, pendingAmount: int) {
    amount.Some? && amount.value > 0 && amount.value <= pendingAmount
  }

  /** `disabled={pendingAmount <= 0}` on the request button. */
  predicate RequestButtonEnabled(pendingAmount: int) {
    pendingAmount > 0
  }

  /** When the page shows the store's pending amount as the server holds
      it, the page's request guard and the request route agree exactly. */
  lemma RequestGuardMatchesServer(db: Db, storeId: nat, amount: int)
    requires storeId != 0 && storeId in db.stores && storeId in db.storeSettlements
    ensures RequestAllowed(Some(amount), db.storeSettlements[storeId].pending)
      <==> RequestSettlement(db, storeId, amount, 0).Ok?
  {
  }

  /** A disabled button means no amount could pass the guard anyway. */
  lemma DisabledButtonBlocksRequests(amount: Option<int>, pendingAmount: int)
    requires !RequestButtonEnabled(pendingAmount)
    ensures !RequestAllowed(amount, pendingAmount)
  {
  }

  /** After a request the page puts the new entry first and adds its
      amount to the shown total; that is the sum of the new list. */
  lemma RequestedSumAfterRequest(rows: seq<SettlementRow>, id: nat, amount: int)
    ensures RequestedSum([SettlementRow(id, amount, Requested)] + rows) == RequestedSum(rows) + amount
  {
    assert ([SettlementRow(id, amount, Requested)] + rows)[1..] == rows;
  }

  // ------------------------------------------------------------------ amend

  /** `handleEditSettlement`'s guards: a positive amount no larger than the
      entry's original total plus the store's pending amount. */
  predicate EditAllowed(amount: Option<int>, originalTotal: int, pendingAmount: int) {
    amount.Some? && amount.value > 0 && amount.value <= originalTotal + pendingAmount
  }

  /** The edit action is offered for statuses that read `requested` in
      lower case. */
  predicate EditActionShown(status: string) {
    ToLower(status) == Requested
  }

  /** The edit action is offered exactly for the settlements the amend route
      does not refuse as being in the wrong state. */
  lemma EditActionMatchesServerState(db: Db, id: nat, amount: int)
    requires amount > 0 && id in db.settlements && db.settlements[id].storeId in db.storeSettlements
    ensures EditActionShown(db.settlements[id].status) <==> AmendSettlement(db, id, amount) != Err(InvalidState)
  {
  }

  /** Everything the amend route accepts passes the page's guard. */
  lemma ServerAmendPassesEditGuard(db: Db, id: nat, amount: int)
    requires AmendSettlement(db, id, amount).Ok?
    ensures var s := db.settlements[id];
      EditAllowed(Some(amount), s.total, db.storeSettlements[s.storeId].pending)
  {
  }

  /** The page's ceiling is looser than the route's: an amount above the
      store's pending amount but within original plus pending passes the
      page and is refused by the server. */
  lemma EditGuardLooserThanServer(db: Db, id: nat, amount: int)
    requires id in db.settlements && db.settlements[id].storeId in db.storeSettlements
    requires ToLower(db.settlements[id].status) == Requested
    requires var s := db.settlements[id];
      var p := db.storeSettlements[s.storeId].pending;
      0 <= p < amount <= s.total + p
    ensures var s := db.settlements[id];
      EditAllowed(Some(amount), s.total, db.storeSettlements[s.storeId].pending)
    ensures AmendSettlement(db, id, amount) == Err(ExceedsStorePending(db.storeSettlements[db.settlements[id].storeId].pending))
  {
  }

  /** The list update after an accepted edit: the entry with the edited id
      is replaced by the server's answer, nothing else moves. */
  function ReplaceById(rows: seq<SettlementRow>, id: nat, updated: SettlementRow): (r: seq<SettlementRow>)
    ensures |r| == |rows|
    ensures forall i :: 0 <= i < |rows| && rows[i].id != id ==> r[i] == rows[i]
    ensures forall i :: 0 <= i < |rows| && rows[i].id == id ==> r[i] == updated
  {
    seq(|rows|, i requires 0 <= i < |rows| => if rows[i].id == id then updated else rows[i])
  }

  /** The total the page shows after an edit: the other requested entries
      plus the new amount. */
  function RequestedAfterEdit(rows: seq<SettlementRow>, id: nat, amount: int): int {
    RequestedSumExcept(rows, id) + amount
  }

  /** Sum over a list where the entry `id` is replaced, split into the
      other entries and the replacement. */
  lemma {:induction false} RequestedSumReplace(rows: seq<SettlementRow>, id: nat, updated: SettlementRow)
    requires updated.id == id
    ensures RequestedSum(ReplaceById(rows, id, updated))
      == RequestedSumExcept(rows, id) + (if updated.status == Requested then Occurrences(rows, id) * updated.total else 0)
  {
    if |rows| > 0 {
      RequestedSumReplace(rows[1..], id, updated);
      assert ReplaceById(rows, id, updated)[1..] == ReplaceById(rows[1..], id, updated);
    }
  }

  /** How many entries carry the id `id`. */
  function Occurrences(rows: seq<SettlementRow>, id: nat): nat {
    if |rows| == 0 then 0 else (if rows[0].id == id then 1 else 0) + Occurrences(rows[1..], id)
  }

  lemma {:induction false} OccurrencesUnique(rows: seq<SettlementRow>, k: nat)
    requires k < |rows|
    requires forall i, j :: 0 <= i < |rows| && 0 <= j < |rows| && i != j ==> rows[i].id != rows[j].id
    ensures Occurrences(rows, rows[k].id) == 1
  {
    if k == 0 {
      OccurrencesAbsent(rows[1..], rows[0].id);
    } else {
      OccurrencesUnique(rows[1..], k - 1);
      assert rows[1..][k - 1] == rows[k];
    }
  }

  lemma {:induction false} OccurrencesAbsent(rows: seq<SettlementRow>, id: nat)
    requires forall i :: 0 <= i < |rows| ==> rows[i].id != id
    ensures Occurrences(rows, id) == 0
  {
    if |rows| > 0 {
      OccurrencesAbsent(rows[1..], id);
    }
  }

  /** The incrementally updated total agrees with recomputing the sum over
      the updated list, when ids are unique, the edited entry is listed
      and the server's answer is still `requested` with the new amount. */
  lemma RequestedAfterEditMatchesList(rows: seq<SettlementRow>, k: nat, amount: int)
    requires k < |rows|
    requires forall i, j :: 0 <= i < |rows| && 0 <= j < |rows| && i != j ==> rows[i].id != rows[j].id
    ensures var id := rows[k].id;
      RequestedAfterEdit(rows, id, amount) == RequestedSum(ReplaceById(rows, id, SettlementRow(id, amount, Requested)))
  {
    var id := rows[k].id;
    RequestedSumReplace(rows, id, SettlementRow(id, amount, Requested));
    OccurrencesUnique(rows, k);
  }
}
