/** Card lifecycle: registering a student (issuing a card), switching a card
    on or off, and the read routes that resolve a GR number to its card.
    (backend/src/index.js) */
module Cards {
  import opened Outcomes
  import opened Strings
  import opened Decimal
  import opened Seqs
  import opened Schema

  /** The multipart form fields of a registration; the photo is not modelled. */
  datatype IssueRequest = IssueRequest(
    name: string, className: string, fatherName: string, grNumber: string)

  /** A student row joined with its account balance (`s.*, sa.balance`;
      the account column wins, and is NULL when there is no account row). */
  datatype StudentView = StudentView(student: Student, balance: Option<int>)

  predicate HasMissingField(req: IssueRequest) {
    req.name == [] || req.className == [] || req.fatherName == [] || req.grNumber == []
  }

  function AccountBalance(db: Db, id: nat): Option<int> {
    if id in db.accounts then Some(db.accounts[id]) else None
  }

  function View(db: Db, s: Student): StudentView {
    StudentView(s, AccountBalance(db, s.id))
  }

  /** The card-number loop: the random draws are tried in order and the
      first one no existing card carries is taken. */
  function FirstUnusedDraw(rows: seq<Student>, draws: seq<int>): (r: Option<nat>)
    ensures r.Some? ==> r.value < |draws| && !CardInUse(rows, draws[r.value])
    ensures r.Some? ==> forall j :: 0 <= j < r.value ==> CardInUse(rows, draws[j])
    ensures r.None? ==> forall j :: 0 <= j < |draws| ==> CardInUse(rows, draws[j])
  {
    FirstWhere(draws, (n: int) => !CardInUse(rows, n))
  }

  function NewCard(db: Db, req: IssueRequest, gr: int, cardNumber: nat): Student {
    Student(db.nextStudentId, gr, req.name, req.className, req.fatherName,
            QrPayload(gr, cardNumber), cardNumber, true, 0, None, 0, None)
  }

  /** The part of `POST /api/students` after the GR number parsed: draw an
      unused card number, refuse a second active card for the GR number,
      then insert the card row and its zero-balance account (`ON CONFLICT`
      keeps an existing account row). The duplicate check is the first
      query that binds the GR number to the `INTEGER` column, so a number
      outside that range fails there. */
  function IssueParsed(db: Db, req: IssueRequest, gr: int, draws: seq<int>): (r: Result<Db>)
    requires forall i :: 0 <= i < |draws| ==> IsCardNumber(draws[i])
    ensures r.Ok? <==> FirstUnusedDraw(db.students, draws).Some? && IsInteger(gr) && FindActive(db.students, gr).None?
    ensures FirstUnusedDraw(db.students, draws).None? ==> r == Err(CardDrawsExhausted)
    ensures FirstUnusedDraw(db.students, draws).Some? && !IsInteger(gr) ==> r == Err(GrOutOfRange)
    ensures FirstUnusedDraw(db.students, draws).Some? && IsInteger(gr) && FindActive(db.students, gr).Some?
      ==> r == Err(DuplicateActiveCard)
    ensures r.Ok? ==>
      && |r.value.students| == |db.students| + 1
      && var card := r.value.students[|db.students|];
      && r.value == db.(students := db.students + [card],
                        accounts := db.accounts[card.id := if card.id in db.accounts then db.accounts[card.id] else 0],
                        nextStudentId := db.nextStudentId + 1)
      && card.id == db.nextStudentId && card.gr == gr && card.active
      && IsCardNumber(card.cardNumber) && card.cardNumber in draws
      && !CardInUse(db.students, card.cardNumber)
      && card.qrData == QrPayload(gr, card.cardNumber)
      && card.balance == 0 && card.dailySpent == 0
  {
    match FirstUnusedDraw(db.students, draws)
    case None => Err(CardDrawsExhausted)
    case Some(k) =>
      if !IsInteger(gr) then Err(GrOutOfRange)
      else if FindActive(db.students, gr).Some? then Err(DuplicateActiveCard)
      else
        assert IsCardNumber(draws[k]);
        var card := NewCard(db, req, gr, draws[k]);
        Ok(db.(students := db.students + [card],
               accounts := db.accounts[card.id := if card.id in db.accounts then db.accounts[card.id] else 0],
               nextStudentId := db.nextStudentId + 1))
  }

  /** `POST /api/students`: every form field must be non-empty and the GR
      number must parse, before the card is drawn and inserted. */
  function IssueCard(db: Db, req: IssueRequest, draws: seq<int>): (r: Result<Db>)
    requires forall i :: 0 <= i < |draws| ==> IsCardNumber(draws[i])
    ensures HasMissingField(req) ==> r == Err(MissingFields)
    ensures !HasMissingField(req) && ParseInt(req.grNumber).None? ==> r == Err(InvalidGrNumber)
    ensures !HasMissingField(req) && ParseInt(req.grNumber).Some? ==>
      r == IssueParsed(db, req, ParseInt(req.grNumber).value, draws)
  {
    if HasMissingField(req) then Err(MissingFields)
    else match ParseInt(req.grNumber)
      case None => Err(InvalidGrNumber)
      case Some(gr) => IssueParsed(db, req, gr, draws)
  }

  /** Appending an active card whose GR number has no active card and
      whose number no card carries, under a fresh id, keeps the invariant. */
  lemma AppendCardKeepsCardsValid(db: Db, card: Student, balance: int)
    requires CardsValid(db)
    requires card.id == db.nextStudentId && card.active
    requires forall i :: 0 <= i < |db.students| ==> !(db.students[i].gr == card.gr && db.students[i].active)
    requires !CardInUse(db.students, card.cardNumber) && IsCardNumber(card.cardNumber)
    requires IsInteger(card.gr)
    requires card.qrData == QrPayload(card.gr, card.cardNumber)
    ensures CardsValid(db.(students := db.students + [card],
                           accounts := db.accounts[card.id := balance],
                           nextStudentId := db.nextStudentId + 1))
  {
    var rows := db.students;
    var rows' := rows + [card];
    var n := |rows|;
    forall i, j | 0 <= i < |rows'| && 0 <= j < |rows'| && i != j && rows'[i].active && rows'[j].active
      ensures rows'[i].gr != rows'[j].gr
    {
      if i == n {
        assert rows'[j] == rows[j];
      } else if j == n {
        assert rows'[i] == rows[i];
      }
    }
    forall i, j | 0 <= i < |rows'| && 0 <= j < |rows'| && i != j
      ensures rows'[i].cardNumber != rows'[j].cardNumber
    {
      if i == n {
        assert rows'[j] == rows[j];
      } else if j == n {
        assert rows'[i] == rows[i];
      }
    }
  }

  /** Issuing keeps the card-table invariant: the new card is the only
      active one of its GR number and carries a number no card had. */
  lemma IssueCardKeepsCardsValid(db: Db, req: IssueRequest, draws: seq<int>)
    requires forall i :: 0 <= i < |draws| ==> IsCardNumber(draws[i])
    requires CardsValid(db)
    requires IssueCard(db, req, draws).Ok?
    ensures CardsValid(IssueCard(db, req, draws).value)
  {
    var db' := IssueCard(db, req, draws).value;
    var card := db'.students[|db.students|];
    AppendCardKeepsCardsValid(db, card, db'.accounts[card.id]);
  }

  /** Under the invariant the fresh serial id has no account yet, so the
      new card's account starts at zero. */
  lemma IssuedAccountStartsAtZero(db: Db, req: IssueRequest, draws: seq<int>)
    requires forall i :: 0 <= i < |draws| ==> IsCardNumber(draws[i])
    requires CardsValid(db)
    requires IssueCard(db, req, draws).Ok?
    ensures db.nextStudentId in IssueCard(db, req, draws).value.accounts
    ensures IssueCard(db, req, draws).value.accounts[db.nextStudentId] == 0
  {
    assert db.nextStudentId !in db.accounts;
  }

  /** A card of GR number `gr`, other than card `id`, is active. */
  predicate OtherActive(rows: seq<Student>, gr: int, id: nat) {
    exists j :: 0 <= j < |rows| && rows[j].gr == gr && rows[j].active && rows[j].id != id
  }

  /** `UPDATE students SET is_active = active WHERE student_id = id`. */
  function SetActive(rows: seq<Student>, id: nat, active: bool): (r: seq<Student>)
    ensures |r| == |rows|
    ensures forall i :: 0 <= i < |rows| ==> r[i] == if rows[i].id == id then rows[i].(active := active) else rows[i]
  {
    seq(|rows|, i requires 0 <= i < |rows| => if rows[i].id == id then rows[i].(active := active) else rows[i])
  }

  /** `PATCH /api/students/:id/toggle-active`: activation is refused while
      another card of the same GR number is active; deactivation is never
      refused; an unknown id is not found either way. */
  function ToggleActive(db: Db, id: nat, isActive: bool): (r: Result<Db>)
    ensures FindStudent(db.students, id).None? ==> r == Err(NotFound)
    ensures FindStudent(db.students, id).Some? && isActive
      && OtherActive(db.students, db.students[FindStudent(db.students, id).value].gr, id)
      ==> r == Err(ConflictingActiveCard)
    ensures r.Ok? <==>
      FindStudent(db.students, id).Some?
      && !(isActive && OtherActive(db.students, db.students[FindStudent(db.students, id).value].gr, id))
    ensures r.Ok? ==> r.value == db.(students := SetActive(db.students, id, isActive))
  {
    var found := FindStudent(db.students, id);
    if isActive && found.None? then Err(NotFound)
    else if isActive && OtherActive(db.students, db.students[found.value].gr, id) then Err(ConflictingActiveCard)
    else if found.None? then Err(NotFound)
    else Ok(db.(students := SetActive(db.students, id, isActive)))
  }

  /** Toggling keeps the card-table invariant; in particular at most one
      card per GR number stays active. */
  lemma ToggleKeepsCardsValid(db: Db, id: nat, isActive: bool)
    requires CardsValid(db)
    requires ToggleActive(db, id, isActive).Ok?
    ensures CardsValid(ToggleActive(db, id, isActive).value)
  {
    var rows := db.students;
    var rows' := ToggleActive(db, id, isActive).value.students;
    var k := FindStudent(rows, id).value;
    forall i, j | 0 <= i < |rows'| && 0 <= j < |rows'| && i != j && rows'[i].active && rows'[j].active
      ensures rows'[i].gr != rows'[j].gr
    {
      if rows[i].id == id || rows[j].id == id {
        if isActive {
          var t, o := if rows[i].id == id then i else j, if rows[i].id == id then j else i;
          assert t == k by { assert rows[t].id == rows[k].id; }
          assert rows[o].id != id;
          assert !OtherActive(rows, rows[k].gr, id);
          assert rows[o].active && rows[o].gr != rows[k].gr;
        }
      }
    }
  }

  /** `GET /api/students/:grNumber/active-card`: the student id and card
      number of the GR number's active card, or not found. */
  function ActiveCard(db: Db, gr: int): (r: Option<(nat, int)>)
    ensures r.None? <==> forall i :: 0 <= i < |db.students| ==> !(db.students[i].gr == gr && db.students[i].active)
    ensures r.Some? ==>
      exists i :: 0 <= i < |db.students| && db.students[i].gr == gr && db.students[i].active
                  && r.value == (db.students[i].id, db.students[i].cardNumber)
  {
    match FindActive(db.students, gr)
    case None => None
    case Some(i) => Some((db.students[i].id, db.students[i].cardNumber))
  }

  /** With at most one active card per GR number the lookup is exact: it
      answers a card exactly when that card is the GR number's active card. */
  lemma ActiveCardExact(db: Db, gr: int, i: nat)
    requires CardsValid(db)
    requires i < |db.students|
    ensures ActiveCard(db, gr) == Some((db.students[i].id, db.students[i].cardNumber))
      <==> db.students[i].gr == gr && db.students[i].active
  {
    var rows := db.students;
    if rows[i].gr == gr && rows[i].active {
      var k := FindActive(rows, gr).value;
      assert rows[k].gr == gr && rows[k].active;
      assert k == i;
    } else {
      match FindActive(rows, gr)
      case None =>
      case Some(k) =>
        assert rows[k].gr == gr && rows[k].active;
        assert k != i;
        assert rows[k].id != rows[i].id;
    }
  }

  /** `GET /api/students/gr/:grNumber` (the first registration): only the
      active card of the GR number, joined with its account balance. */
  function GrLookup(db: Db, gr: int): (r: Option<StudentView>)
    ensures r.Some? <==> ActiveCard(db, gr).Some?
    ensures r.Some? ==>
      && r.value.student in db.students && r.value.student.gr == gr && r.value.student.active
      && r.value.balance == AccountBalance(db, r.value.student.id)
  {
    match FindActive(db.students, gr)
    case None => None
    case Some(i) => Some(View(db, db.students[i]))
  }

  predicate ListMatches(s: Student, gr: Option<int>) {
    gr.None? || s.gr == gr.value
  }

  /** `GET /api/students` (the first registration): every card, or only
      those of one GR number, newest first, joined with account balances. */
  function StudentList(db: Db, gr: Option<int>): (r: seq<StudentView>)
    ensures |r| <= |db.students|
    ensures forall v :: v in r <==> v.student in db.students && ListMatches(v.student, gr) && v == View(db, v.student)
  {
    ListNewestFirst(db, db.students, gr)
  }

  function ListNewestFirst(db: Db, rows: seq<Student>, gr: Option<int>): (r: seq<StudentView>)
    ensures |r| <= |rows|
    ensures forall v :: v in r <==> v.student in rows && ListMatches(v.student, gr) && v == View(db, v.student)
  {
    if |rows| == 0 then []
    else
      var last := rows[|rows| - 1];
      var rest := ListNewestFirst(db, rows[..|rows| - 1], gr);
      assert rows == rows[..|rows| - 1] + [last];
      if ListMatches(last, gr) then [View(db, last)] + rest else rest
  }
}
