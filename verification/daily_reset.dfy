/** The three ways `daily_spent` goes back to zero: the stale-only bulk
    sweep, the unconditional reset, and the lazy reset when a card is
    looked up for a scan. Days are integer day numbers and `today` is the
    store's `CURRENT_DATE`. (backend/src/index.js) */
module DailyReset {
  import opened Outcomes
  import opened Schema

  /** `last_spent_reset < CURRENT_DATE`. A NULL date compares as unknown in
      SQL, so a row that was never reset is not stale for the sweep. */
  predicate Stale(s: Student, today: int) {
    s.lastSpentReset.Some? && s.lastSpentReset.value < today
  }

  /** The scan route's test `!lastReset || lastReset < today`: here a NULL
      date does call for a reset. */
  predicate NeedsLazyReset(s: Student, today: int) {
    s.lastSpentReset.None? || s.lastSpentReset.value < today
  }

  /** `SET daily_spent = 0, last_spent_reset = CURRENT_DATE`. */
  function Cleared(s: Student, today: int): Student {
    s.(dailySpent := 0, lastSpentReset := Some(today))
  }

  /** `resetStaleDailyLimits`: one bulk update of the stale rows only. */
  function ResetStale(db: Db, today: int): (r: Db)
    ensures |r.students| == |db.students|
    ensures forall i :: 0 <= i < |db.students| ==>
      r.students[i] == if Stale(db.students[i], today) then Cleared(db.students[i], today) else db.students[i]
    ensures r.(students := db.students) == db
  {
    var rows := db.students;
    db.(students := seq(|rows|, i requires 0 <= i < |rows| =>
                          if Stale(rows[i], today) then Cleared(rows[i], today) else rows[i]))
  }

  /** `resetDailySpent` (the manual reset route): every row, stale or not. */
  function ResetAll(db: Db, today: int): (r: Db)
    ensures |r.students| == |db.students|
    ensures forall i :: 0 <= i < |db.students| ==> r.students[i] == Cleared(db.students[i], today)
    ensures r.(students := db.students) == db
  {
    var rows := db.students;
    db.(students := seq(|rows|, i requires 0 <= i < |rows| => Cleared(rows[i], today)))
  }

  /** After the sweep no row is stale, and rows never reset stay untouched. */
  lemma ResetStaleLeavesNothingStale(db: Db, today: int)
    ensures forall i :: 0 <= i < |db.students| ==> !Stale(ResetStale(db, today).students[i], today)
    ensures forall i :: 0 <= i < |db.students| && db.students[i].lastSpentReset.None? ==>
      ResetStale(db, today).students[i] == db.students[i]
  {
  }

  /** Running the sweep twice on the same day is the same as running it once. */
  lemma ResetStaleIdempotent(db: Db, today: int)
    ensures ResetStale(ResetStale(db, today), today) == ResetStale(db, today)
  {
    var once := ResetStale(db, today);
    var twice := ResetStale(once, today);
    assert twice.students == once.students;
  }

  /** The unconditional reset is idempotent too, and subsumes a prior sweep. */
  lemma ResetAllIdempotent(db: Db, today: int)
    ensures ResetAll(ResetAll(db, today), today) == ResetAll(db, today)
    ensures ResetAll(ResetStale(db, today), today) == ResetAll(db, today)
  {
    assert ResetAll(ResetAll(db, today), today).students == ResetAll(db, today).students;
    assert ResetAll(ResetStale(db, today), today).students == ResetAll(db, today).students;
  }

  /** The unconditional reset differs from the sweep exactly on rows that
      were not stale, e.g. a row already reset today that has spent since. */
  lemma ResetAllVersusStale(db: Db, today: int, i: nat)
    requires i < |db.students|
    ensures ResetAll(db, today).students[i] == ResetStale(db, today).students[i]
      <==> Stale(db.students[i], today) || db.students[i] == Cleared(db.students[i], today)
  {
  }

  function ClearCard(rows: seq<Student>, id: nat, today: int): (r: seq<Student>)
    ensures |r| == |rows|
    ensures forall i :: 0 <= i < |rows| ==> r[i] == if rows[i].id == id then Cleared(rows[i], today) else rows[i]
  {
    seq(|rows|, i requires 0 <= i < |rows| => if rows[i].id == id then Cleared(rows[i], today) else rows[i])
  }

  /** `GET /api/students/:id/scan`: the card row as read, with the lazy
      reset applied when its last reset is NULL or before today. The
      answer shows `daily_spent` 0 but the date as it was read. */
  function ScanStudent(db: Db, id: nat, today: int): (r: Result<(Db, Student)>)
    ensures r.Err? <==> FindStudent(db.students, id).None?
    ensures r.Err? ==> r.error == NotFound
    ensures r.Ok? ==>
      var row := db.students[FindStudent(db.students, id).value];
      var (db', shown) := r.value;
      && shown == (if NeedsLazyReset(row, today) then row.(dailySpent := 0) else row)
      && |db'.students| == |db.students|
      && (forall i :: 0 <= i < |db.students| ==>
            db'.students[i] == if db.students[i].id == id && NeedsLazyReset(row, today)
                               then Cleared(db.students[i], today) else db.students[i])
      && db'.(students := db.students) == db
  {
    match FindStudent(db.students, id)
    case None => Err(NotFound)
    case Some(k) =>
      var row := db.students[k];
      if NeedsLazyReset(row, today) then
        Ok((db.(students := ClearCard(db.students, id, today)), row.(dailySpent := 0)))
      else Ok((db, row))
  }

  /** A sweep that runs after a scan on the same day does not reset that
      card again: its date is no longer before today. */
  lemma ScanThenSweepKeepsCard(db: Db, id: nat, today: int, i: nat)
    requires UniqueIds(db.students)
    requires ScanStudent(db, id, today).Ok?
    requires i < |db.students| && db.students[i].id == id
    ensures var db' := ScanStudent(db, id, today).value.0;
      ResetStale(db', today).students[i] == db'.students[i]
  {
    var k := FindStudent(db.students, id).value;
    assert k == i;
  }

  /** A scan after the sweep writes nothing for a card that had a reset
      date, but still resets a card whose date was NULL, which the sweep
      skips. */
  lemma SweepThenScan(db: Db, id: nat, today: int)
    requires FindStudent(db.students, id).Some?
    ensures var swept := ResetStale(db, today);
      var row := db.students[FindStudent(db.students, id).value];
      && ScanStudent(swept, id, today).Ok?
      && (row.lastSpentReset.Some? ==> ScanStudent(swept, id, today).value.0 == swept)
      && (row.lastSpentReset.None? ==> ScanStudent(swept, id, today).value.1.dailySpent == 0)
  {
    var swept := ResetStale(db, today);
    var k := FindStudent(db.students, id).value;
    var k' := FindStudent(swept.students, id).value;
    assert k' == k by {
      assert swept.students[k].id == id;
      assert forall j :: 0 <= j < |db.students| ==> swept.students[j].id == db.students[j].id;
    }
  }
}
