/** The rows of the relational store the backend reads and writes, and the
    invariants the card handlers are meant to keep.

    A `students` row is one issued CARD: re-issuing a card for the same GR
    number inserts a new row with a fresh `student_id`, so a GR number owns
    many rows of which at most one should be active. Money is in integer
    minor units; days are integer day numbers. */
module Schema {
  import opened Outcomes
  import opened Seqs
  import opened Strings
  import opened Decimal

  /** One `students` row. `balance` is the legacy copy of the account
      balance; `dailySpent` and `lastSpentReset` live on this table, and
      `lastSpentReset` may be NULL. */
  datatype Student = Student(
    id: nat,
    gr: int,
    name: string,
    className: string,
    fatherName: string,
    qrData: string,
    cardNumber: int,
    active: bool,
    balance: int,
    dailyLimit: Option<int>,
    dailySpent: int,
    lastSpentReset: Option<int>)

  datatype Recharge = Recharge(
    studentId: nat, amount: int, rechargeType: string, notes: string,
    createdBy: nat, createdAt: int)

  /** A debit, written by the store routes; the ledger only reads these. */
  datatype Txn = Txn(
    studentId: nat, storeId: nat, amount: int, status: string, createdAt: int)

  /** A `settlements` row. `pending` is the amount still owed on this one
      request, distinct from the store's unearmarked `StoreSettlement.pending`. */
  datatype Settlement = Settlement(
    storeId: nat, total: int, settled: int, pending: int, status: string,
    createdBy: Option<nat>, createdAt: int)

  datatype SettlementLog = SettlementLog(
    settlementId: nat, action: string, amount: int, notes: string,
    createdBy: nat, logDate: int)

  /** A `store_settlements` row: the store's earned but not yet settled amount. */
  datatype StoreSettlement = StoreSettlement(pending: int, createdAt: int)

  /** The whole store. Serial keys are handed out from the two counters. */
  datatype Db = Db(
    students: seq<Student>,
    accounts: map<nat, int>,
    recharges: seq<Recharge>,
    transactions: seq<Txn>,
    stores: set<nat>,
    storeSettlements: map<nat, StoreSettlement>,
    settlements: map<nat, Settlement>,
    logs: seq<SettlementLog>,
    nextStudentId: nat,
    nextSettlementId: nat)

  const MinCardNumber := 10000
  const MaxCardNumber := 99999

  predicate IsCardNumber(n: int) {
    MinCardNumber <= n <= MaxCardNumber
  }

  /** The range of a PostgreSQL `INTEGER` column, which `gr_number` is
      (the list route casts its filter with `::integer`). */
  const MinInteger := -0x8000_0000
  const MaxInteger := 0x7FFF_FFFF

  predicate IsInteger(n: int) {
    MinInteger <= n <= MaxInteger
  }

  /** The QR payload printed on a card: the GR number immediately followed
      by the card number. */
  function QrPayload(gr: int, cardNumber: nat): string {
    IntToString(gr) + Render(cardNumber)
  }

  /** The payload's last five characters are the card number's spelling and
      what precedes them is the GR number's; it is all digits unless the GR
      number is negative, when it starts with `-`. */
  lemma QrPayloadLayout(gr: int, cardNumber: nat)
    requires IsCardNumber(cardNumber)
    ensures var r := QrPayload(gr, cardNumber);
      && |r| > 5
      && r[|r| - 5..] == Render(cardNumber)
      && r[..|r| - 5] == IntToString(gr)
      && (gr >= 0 ==> IsDigitString(r))
      && (gr < 0 ==> r[0] == '-')
  {
    RenderFiveDigits(cardNumber);
    var r := QrPayload(gr, cardNumber);
    assert r[|r| - 5..] == Render(cardNumber);
    assert r[..|r| - 5] == IntToString(gr);
  }

  /** `WHERE student_id = id`, first row. */
  function FindStudent(rows: seq<Student>, id: nat): Option<nat> {
    FirstWhere(rows, (s: Student) => s.id == id)
  }

  /** `WHERE gr_number = gr AND is_active = true`, first row. */
  function FindActive(rows: seq<Student>, gr: int): Option<nat> {
    FirstWhere(rows, (s: Student) => s.gr == gr && s.active)
  }

  /** `SELECT card_number FROM students WHERE card_number = n` finds a row. */
  predicate CardInUse(rows: seq<Student>, n: int) {
    exists i :: 0 <= i < |rows| && rows[i].cardNumber == n
  }

  predicate UniqueIds(rows: seq<Student>) {
    forall i, j :: 0 <= i < |rows| && 0 <= j < |rows| && i != j ==> rows[i].id != rows[j].id
  }

  /** At most one active card per GR number. */
  predicate AtMostOneActivePerGr(rows: seq<Student>) {
    forall i, j :: 0 <= i < |rows| && 0 <= j < |rows| && i != j && rows[i].active && rows[j].active
      ==> rows[i].gr != rows[j].gr
  }

  /** Card numbers are unique over every issued card, active or not. */
  predicate UniqueCardNumbers(rows: seq<Student>) {
    forall i, j :: 0 <= i < |rows| && 0 <= j < |rows| && i != j ==> rows[i].cardNumber != rows[j].cardNumber
  }

  predicate CardNumbersInRange(rows: seq<Student>) {
    forall i :: 0 <= i < |rows| ==> IsCardNumber(rows[i].cardNumber)
  }

  predicate GrNumbersInRange(rows: seq<Student>) {
    forall i :: 0 <= i < |rows| ==> IsInteger(rows[i].gr)
  }

  predicate QrMatchesCard(rows: seq<Student>) {
    forall i :: 0 <= i < |rows| ==> rows[i].cardNumber >= 0 && rows[i].qrData == QrPayload(rows[i].gr, rows[i].cardNumber)
  }

  /** Serial ids already handed out lie below the counter. */
  predicate IdsBelowCounter(db: Db) {
    && (forall i :: 0 <= i < |db.students| ==> db.students[i].id < db.nextStudentId)
    && (forall k :: k in db.accounts ==> k < db.nextStudentId)
    && (forall k :: k in db.settlements ==> k < db.nextSettlementId)
  }

  /** The card-table invariant the issuing and toggling handlers keep. */
  predicate CardsValid(db: Db) {
    && UniqueIds(db.students)
    && AtMostOneActivePerGr(db.students)
    && UniqueCardNumbers(db.students)
    && CardNumbersInRange(db.students)
    && GrNumbersInRange(db.students)
    && QrMatchesCard(db.students)
    && IdsBelowCounter(db)
  }
}
