/** The bank's recharge page: the amount and daily-limit guards, the local
    list updates after the server accepts either, the GR number search,
    and the payload of the activate/deactivate button.
    (frontend/src/components/RechargeManagement.js) */
module RechargeManagement {
  import opened Outcomes
  import opened Strings
  import opened Decimal
  import opened Schema
  import opened Cards
  import opened Balance

  /** One entry of the page's student list. */
  datatype StudentEntry = StudentEntry(id: nat, gr: int, active: bool, balance: int, dailyLimit: Option<int>)

  // ----------------------------------------------------------------- guards

  /** `handleRecharge`'s guard: an amount, and positive. `None` is the
      empty field. */
  predicate RechargeAllowed(amount: Option<int>) {
    amount.Some? && amount.value > 0
  }

  /** `handleSetDailyLimit`'s guard: a limit, and not negative; the text
      `0` is a non-empty string, so zero passes. */
  predicate DailyLimitAllowed(limit: Option<int>) {
    limit.Some? && limit.value >= 0
  }

  /** The recharge route checks nothing about the amount, so the page's
      guard is the only thing between a card and a non-positive recharge:
      the route would accept it and lower (or keep) the ledger balance. */
  lemma RechargeGuardIsOnlyBarrier(db: Db, id: nat, amount: int, actor: nat, today: int)
    requires FindStudent(db.students, id).Some? && id in db.accounts
    requires amount <= 0
    ensures !RechargeAllowed(Some(amount))
    ensures ApplyRecharge(db, id, amount, "credit", "Account recharge", actor, today).Ok?
    ensures DerivedBalance(ApplyRecharge(db, id, amount, "credit", "Account recharge", actor, today).value, id)
      <= DerivedBalance(db, id)
  {
  }

  /** A limit the page lets through is stored as given, so every card row
      of that id ends with that non-negative limit; zero is a valid limit. */
  lemma AllowedLimitIsStored(db: Db, id: nat, limit: int)
    requires DailyLimitAllowed(Some(limit))
    requires FindStudent(db.students, id).Some?
    ensures SetDailyLimit(db, id, Some(limit)).Ok?
    ensures forall i :: 0 <= i < |db.students| && db.students[i].id == id ==>
      SetDailyLimit(db, id, Some(limit)).value.students[i].dailyLimit == Some(limit) && limit >= 0
    ensures DailyLimitAllowed(Some(0)) && !DailyLimitAllowed(None)
  {
  }

  // ----------------------------------------------------------- list updates

  /** `updateStudentBalance`: the selected card's entry takes the balance
      the server answered; every other entry and field is kept. */
  function UpdateStudentBalance(rows: seq<StudentEntry>, id: nat, newBalance: int): (r: seq<StudentEntry>)
    ensures |r| == |rows|
    ensures forall i :: 0 <= i < |rows| && rows[i].id != id ==> r[i] == rows[i]
    ensures forall i :: 0 <= i < |rows| && rows[i].id == id ==> r[i].balance == newBalance
    ensures forall i :: 0 <= i < |rows| ==> r[i].(balance := rows[i].balance) == rows[i]
  {
    seq(|rows|, i requires 0 <= i < |rows| => if rows[i].id == id then rows[i].(balance := newBalance) else rows[i])
  }

  /** `updateStudentDailyLimit`: likewise for the daily limit. */
  function UpdateStudentDailyLimit(rows: seq<StudentEntry>, id: nat, limit: Option<int>): (r: seq<StudentEntry>)
    ensures |r| == |rows|
    ensures forall i :: 0 <= i < |rows| && rows[i].id != id ==> r[i] == rows[i]
    ensures forall i :: 0 <= i < |rows| && rows[i].id == id ==> r[i].dailyLimit == limit
    ensures forall i :: 0 <= i < |rows| ==> r[i].(dailyLimit := rows[i].dailyLimit) == rows[i]
  {
    seq(|rows|, i requires 0 <= i < |rows| => if rows[i].id == id then rows[i].(dailyLimit := limit) else rows[i])
  }

  /** The balance the recharge route answers is the account balance it just
      wrote, so the page's entry for the card shows the new ledger balance. */
  lemma RechargedEntryShowsLedger(db: Db, rows: seq<StudentEntry>, id: nat, amount: int, actor: nat, today: int)
    requires ApplyRecharge(db, id, amount, "credit", "Account recharge", actor, today).Ok?
    ensures var db' := ApplyRecharge(db, id, amount, "credit", "Account recharge", actor, today).value;
      var rows' := UpdateStudentBalance(rows, id, db'.accounts[id]);
      forall i :: 0 <= i < |rows'| && rows'[i].id == id ==> rows'[i].balance == DerivedBalance(db', id)
  {
  }

  // ----------------------------------------------------------------- search

  /** `handleSearch` schedules a search only for an empty query or one of
      at least three characters. */
  predicate SearchFires(query: string) {
    |query| == 0 || |query| >= 3
  }

  /** Typing a GR number below 100 never starts a search: its spelling has
      one or two characters. */
  lemma ShortGrNeverSearched(gr: nat)
    requires gr < 100
    ensures !SearchFires(IntToString(gr))
  {
    if gr >= 10 {
      assert |Render(gr / 10)| == 1;
    }
  }

  /** An optional sign followed by decimal digits. */
  predicate IsSignedDecimal(s: string) {
    IsDigitString(s) || (|s| > 0 && (s[0] == '-' || s[0] == '+') && IsDigitString(s[1..]))
  }

  /** `isNaN(query)` on the forms the model reads: `Number` of a blank
      string is 0, of a signed decimal its value, and of anything else NaN. */
  predicate QueryIsNaN(query: string) {
    var t := Trim(query);
    !(t == "" || IsSignedDecimal(t))
  }

  datatype SearchOutcome =
    | ShowAll
    | InvalidQuery
    | SearchFailed
    | Results(entries: seq<StudentEntry>)

  function Entry(db: Db, s: Student): StudentEntry {
    StudentEntry(s.id, s.gr, s.active, DerivedBalance(db, s.id), s.dailyLimit)
  }

  /** `searchStudents`: an empty query leaves search mode and shows every
      student again; a query `isNaN` rejects shows an error and an empty
      list; otherwise `parseInt` of the query is sent as the GR number
      filter, and each card found shows its ledger balance. A blank query
      passes `isNaN` but parses to NaN, which the route cannot cast, so the
      search fails and the list stays as it was; so does a number beyond
      the INTEGER range, which the route's `::integer` cast refuses. */
  function SearchStudents(db: Db, query: string): (r: SearchOutcome)
    ensures r == ShowAll <==> query == ""
    ensures r == InvalidQuery <==> query != "" && QueryIsNaN(query)
    ensures r.Results? ==> ParseInt(query).Some?
    ensures r.Results? <==>
      query != "" && !QueryIsNaN(query) && ParseInt(query).Some? && IsInteger(ParseInt(query).value)
    ensures r.Results? ==>
      forall e :: e in r.entries <==>
        exists s :: s in db.students && s.gr == ParseInt(query).value && e == Entry(db, s)
  {
    if query == "" then ShowAll
    else if QueryIsNaN(query) then InvalidQuery
    else match ParseInt(query)
      case None => SearchFailed
      case Some(gr) => if !IsInteger(gr) then SearchFailed else Results(SearchEntries(db, gr))
  }

  /** The entries a search for GR number `gr` shows: each of its cards with
      its ledger balance. */
  function SearchEntries(db: Db, gr: int): (r: seq<StudentEntry>)
    ensures forall e :: e in r <==> exists s :: s in db.students && s.gr == gr && e == Entry(db, s)
  {
    var views := StudentList(db, Some(gr));
    var entries := seq(|views|, i requires 0 <= i < |views| => Entry(db, views[i].student));
    assert forall e :: e in entries <==> exists s :: s in db.students && s.gr == gr && e == Entry(db, s) by {
      forall e | e in entries
        ensures exists s :: s in db.students && s.gr == gr && e == Entry(db, s)
      {
        var i :| 0 <= i < |views| && entries[i] == e;
        assert views[i] in views;
      }
      forall e | exists s :: s in db.students && s.gr == gr && e == Entry(db, s)
        ensures e in entries
      {
        var s :| s in db.students && s.gr == gr && e == Entry(db, s);
        assert View(db, s) in views;
        var i :| 0 <= i < |views| && views[i] == View(db, s);
        assert entries[i] == e;
      }
    }
    entries
  }

  /** A GR number typed as digits is searched iff it fits the INTEGER
      column, and then finds exactly the cards of that GR number. */
  lemma SearchByDigitsFindsCards(db: Db, query: string, s: Student)
    requires IsDigitString(query)
    requires s in db.students
    ensures SearchStudents(db, query).Results? <==> IsInteger(Value(query))
    ensures SearchStudents(db, query).Results? ==>
      (Entry(db, s) in SearchStudents(db, query).entries <==> s.gr == Value(query))
  {
    TrimDigits(query);
    assert IsSignedDecimal(Trim(query));
    assert !QueryIsNaN(query);
    assert ParseInt(query) == Some(Value(query));
    var r := SearchStudents(db, query);
    if r.Results? && s.gr == Value(query) {
      assert exists s' :: s' in db.students && s'.gr == ParseInt(query).value && Entry(db, s) == Entry(db, s');
    }
  }

  /** A query of blanks only is not rejected as NaN, yet the search fails. */
  lemma BlankQueryFails(db: Db, query: string)
    requires query != "" && forall i :: 0 <= i < |query| ==> query[i] == ' '
    ensures SearchStudents(db, query) == SearchFailed
  {
    assert TrimStart(query) == [];
    assert Trim(query) == [];
  }

  // ----------------------------------------------------------------- toggle

  /** The toggle button sends the opposite of the status shown. */
  function TogglePayload(currentlyActive: bool): (r: bool)
    ensures r != currentlyActive
  {
    !currentlyActive
  }

  /** Pressing the toggle on a listed card deactivates an active card
      unconditionally, and activates an inactive one exactly when no other
      card of its GR number is active; either way the card flips. */
  lemma ToggleFlipsCard(db: Db, i: nat)
    requires CardsValid(db)
    requires i < |db.students|
    ensures var row := db.students[i];
      var r := ToggleActive(db, row.id, TogglePayload(row.active));
      && (row.active ==> r.Ok?)
      && (!row.active ==> (r.Ok? <==> !OtherActive(db.students, row.gr, row.id)))
      && (r.Ok? ==> r.value.students[i].active == !row.active)
  {
    var row := db.students[i];
    var k := FindStudent(db.students, row.id).value;
    assert k == i;
  }
}
