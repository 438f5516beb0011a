/** The store terminal's card reading rules: cleaning what a keyboard-wedge
    scanner typed, splitting a QR payload into GR number and card number,
    matching it against the GR number's active card, the typed-input
    filter, and the two amount displays of the purchase dialog.
    (store-frontend/src/pages/Dashboard.js) */
module StoreDashboard {
  import opened Outcomes
  import opened Strings
  import opened Decimal
  import opened Schema
  import opened Cards
  import opened DailyReset

  /** What reading a card leads to. `Found(id)` goes on to fetch `/scan`
      for card `id`; `ManualLookup(text)` asks the GR lookup route with the
      text as typed. */
  datatype ScanOutcome =
    | NoLookup
    | NotNumeric
    | InvalidFormat
    | LookupFailed
    | NoActiveCard
    | Deactivated
    | Found(studentId: nat)
    | ManualLookup(text: string)

  // ---------------------------------------------------------------- cleaning

  /** Position `i` matches `/^"|\n|\r$/`: a quote at the very start, any
      line feed, or a carriage return at the very end. */
  predicate Noise(v: string, i: nat)
    requires i < |v|
  {
    (i == 0 && v[i] == '"') || v[i] == '\n' || (i == |v| - 1 && v[i] == '\r')
  }

  /** The characters of `v` from position `from` on that are not noise. */
  function KeepFrom(v: string, from: nat): (r: string)
    requires from <= |v|
    ensures |r| <= |v| - from
    ensures forall k :: 0 <= k < |r| ==> r[k] != '\n'
    decreases |v| - from
  {
    if from == |v| then []
    else (if Noise(v, from) then [] else [v[from]]) + KeepFrom(v, from + 1)
  }

  /** `value.replace(/^"|\n|\r$/g, '').trim()`: the global replace removes
      every noise position of the original string at once. */
  function CleanInput(v: string): (r: string)
    ensures |r| <= |v|
    ensures forall k :: 0 <= k < |r| ==> r[k] != '\n'
    ensures |r| > 0 ==> !IsSpace(r[0]) && !IsSpace(r[|r| - 1])
  {
    Trim(KeepFrom(v, 0))
  }

  /** A run without noise is copied through unchanged. */
  lemma {:induction false} KeepRun(v: string, from: nat, to: nat)
    requires from <= to <= |v|
    requires forall i :: from <= i < to ==> !Noise(v, i)
    ensures KeepFrom(v, from) == v[from..to] + KeepFrom(v, to)
    decreases (to as int) - (from as int)
  {
    if from < to {
      KeepRun(v, from + 1, to);
      assert v[from..to] == [v[from]] + v[from + 1..to];
    }
  }

  /** Text with no noise position and no white space is its own cleaned
      form: cleaning removes nothing but noise and blanks at the ends. */
  lemma CleanPlainText(v: string)
    requires forall i :: 0 <= i < |v| ==> !Noise(v, i) && !IsSpace(v[i])
    ensures CleanInput(v) == v
  {
    KeepRun(v, 0, |v|);
    assert v[0..|v|] == v;
    TrimNoSpace(v);
  }

  /** A bare digit string is its own cleaned form. */
  lemma CleanDigits(s: string)
    requires AllDigits(s)
    ensures CleanInput(s) == s
  {
    KeepRun(s, 0, |s|);
    assert s[0..|s|] == s;
    TrimDigits(s);
  }

  /** What a scanner wraps around the payload is stripped: a quoted payload
      ended by a carriage return, or one ended by a line feed. */
  lemma CleanScannerWrapping(s: string)
    requires IsDigitString(s)
    ensures CleanInput("\"" + s + "\r") == s
    ensures CleanInput(s + "\n") == s
  {
    CleanQuotedReturn(s);
    CleanTrailingLineFeed(s);
  }

  lemma CleanQuotedReturn(s: string)
    requires IsDigitString(s)
    ensures CleanInput("\"" + s + "\r") == s
  {
    var v := "\"" + s + "\r";
    assert forall i :: 1 <= i < |s| + 1 ==> v[i] == s[i - 1];
    assert forall i :: 1 <= i < |s| + 1 ==> !Noise(v, i);
    KeepRun(v, 1, |s| + 1);
    assert v[1..|s| + 1] == s;
    assert Noise(v, |s| + 1);
    assert KeepFrom(v, |s| + 1) == [] + KeepFrom(v, |v|);
    assert Noise(v, 0);
    assert KeepFrom(v, 0) == s;
    TrimDigits(s);
  }

  lemma CleanTrailingLineFeed(s: string)
    requires IsDigitString(s)
    ensures CleanInput(s + "\n") == s
  {
    var w := s + "\n";
    assert forall i :: 0 <= i < |s| ==> w[i] == s[i];
    assert forall i :: 0 <= i < |s| ==> !Noise(w, i);
    KeepRun(w, 0, |s|);
    assert w[0..|s|] == s;
    assert Noise(w, |s|);
    assert KeepFrom(w, |s|) == [] + KeepFrom(w, |w|);
    assert KeepFrom(w, 0) == s;
    TrimDigits(s);
  }

  // ------------------------------------------------------------------- split

  /** `text.slice(-5)`. */
  function LastFive(s: string): (r: string)
    ensures AllDigits(s) ==> AllDigits(r)
  {
    if |s| >= 5 then s[|s| - 5..] else s
  }

  /** `text.slice(0, -5)`. */
  function AllButLastFive(s: string): (r: string)
    ensures AllDigits(s) ==> AllDigits(r)
  {
    if |s| >= 5 then s[..|s| - 5] else ""
  }

  /** The GR part and the card part of a payload, or `None` for the
      `!cardNumber || !grNumber` refusal. */
  function SplitQr(s: string): (r: Option<(string, string)>)
    ensures r.None? <==> |s| <= 5
    ensures r.Some? ==> r.value.0 + r.value.1 == s && |r.value.1| == 5 && |r.value.0| > 0
  {
    var card := LastFive(s);
    var gr := AllButLastFive(s);
    if card == "" || gr == "" then None
    else
      assert gr + card == s;
      Some((gr, card))
  }

  /** Splitting a printed payload gives back the two numbers' spellings. */
  lemma SplitQrOfPayload(gr: nat, cardNumber: nat)
    requires IsCardNumber(cardNumber)
    ensures SplitQr(Render(gr) + Render(cardNumber)) == Some((Render(gr), Render(cardNumber)))
  {
    RenderFiveDigits(cardNumber);
    var s := Render(gr) + Render(cardNumber);
    assert s[..|s| - 5] == Render(gr);
    assert s[|s| - 5..] == Render(cardNumber);
  }

  // ------------------------------------------------------------------- match

  /** The active-card check. The route binds the GR text to the INTEGER
      column, so a number beyond that range makes the query fail and the
      page reports an error; otherwise the GR number's active card is
      compared with `parseInt` of the card part. The route's
      `gr_number = $1` reads the GR text as an integer, leading zeros and
      all. */
  function ResolveCard(db: Db, gr: string, card: string): (r: ScanOutcome)
    requires AllDigits(gr) && AllDigits(card)
    ensures r.LookupFailed? || r.NoActiveCard? || r.Deactivated? || r.Found?
    ensures r.LookupFailed? <==> !IsInteger(Value(gr))
    ensures r.NoActiveCard? <==> IsInteger(Value(gr)) && ActiveCard(db, Value(gr)).None?
    ensures r.Found? <==>
      IsInteger(Value(gr)) && ActiveCard(db, Value(gr)).Some? && ActiveCard(db, Value(gr)).value.1 == Value(card)
    ensures r.Found? ==> r.studentId == ActiveCard(db, Value(gr)).value.0
    ensures r.Found? ==>
      exists i :: 0 <= i < |db.students| && db.students[i].id == r.studentId && db.students[i].active
                  && db.students[i].gr == Value(gr) && db.students[i].cardNumber == Value(card)
  {
    if !IsInteger(Value(gr)) then LookupFailed
    else match ActiveCard(db, Value(gr))
      case None => NoActiveCard
      case Some((id, n)) => if n != Value(card) then Deactivated else Found(id)
  }

  /** A digit payload: five digits or fewer leave no GR part; otherwise
      the GR part and the last five digits are matched. */
  function ResolvePayload(db: Db, c: string): (r: ScanOutcome)
    requires AllDigits(c)
    ensures r == InvalidFormat <==> |c| <= 5
    ensures |c| > 5 ==> r == ResolveCard(db, AllButLastFive(c), LastFive(c))
    ensures r.InvalidFormat? || r.LookupFailed? || r.NoActiveCard? || r.Deactivated? || r.Found?
  {
    match SplitQr(c)
    case None => InvalidFormat
    case Some((gr, card)) => ResolveCard(db, gr, card)
  }

  /** `onQrCodeScanned`: the camera's decoded text, all digits, split and
      matched. */
  function OnQrCodeScanned(db: Db, text: string): (r: ScanOutcome)
    ensures r == NotNumeric <==> !IsDigitString(text)
    ensures r == InvalidFormat <==> IsDigitString(text) && |text| <= 5
    ensures IsDigitString(text) && |text| > 5 ==> r == ResolveCard(db, AllButLastFive(text), LastFive(text))
  {
    if !IsDigitString(text) then NotNumeric else ResolvePayload(db, text)
  }

  /** What `handleGrNumberInput` does with the cleaned text: nothing when
      it is empty, a payload when it is all digits, and a GR number typed
      by hand otherwise. */
  function HandleCleaned(db: Db, c: string): (r: ScanOutcome)
    ensures r == NoLookup <==> c == ""
    ensures r.ManualLookup? <==> c != "" && !AllDigits(c)
    ensures r.ManualLookup? ==> r.text == c
    ensures r == InvalidFormat <==> c != "" && AllDigits(c) && |c| <= 5
    ensures AllDigits(c) && |c| > 5 ==> r == ResolveCard(db, AllButLastFive(c), LastFive(c))
    ensures r != NotNumeric
  {
    if c == "" then NoLookup
    else if !AllDigits(c) then ManualLookup(c)
    else ResolvePayload(db, c)
  }

  /** `handleGrNumberInput`: the typed or wedge-scanned text, cleaned; a
      digit string is a QR payload, anything else a GR number typed by
      hand. */
  function HandleGrNumberInput(db: Db, value: string): (r: ScanOutcome)
    ensures r == NoLookup <==> CleanInput(value) == ""
    ensures r.ManualLookup? <==> CleanInput(value) != "" && !AllDigits(CleanInput(value))
    ensures r.ManualLookup? ==> r.text == CleanInput(value)
    ensures r == InvalidFormat <==> CleanInput(value) != "" && AllDigits(CleanInput(value)) && |CleanInput(value)| <= 5
    ensures var c := CleanInput(value);
      AllDigits(c) && |c| > 5 ==> r == ResolveCard(db, AllButLastFive(c), LastFive(c))
    ensures r != NotNumeric
  {
    HandleCleaned(db, CleanInput(value))
  }

  /** A card printed for a non-negative GR number and still active is
      found by both the camera and the scanner path. */
  lemma IssuedCardScans(db: Db, i: nat)
    requires CardsValid(db)
    requires i < |db.students| && db.students[i].active && db.students[i].gr >= 0
    ensures OnQrCodeScanned(db, db.students[i].qrData) == Found(db.students[i].id)
    ensures HandleGrNumberInput(db, db.students[i].qrData) == Found(db.students[i].id)
  {
    var row := db.students[i];
    var g := Render(row.gr);
    var c := Render(row.cardNumber);
    assert row.qrData == g + c;
    SplitQrOfPayload(row.gr, row.cardNumber);
    ValueOfRender(row.gr);
    ValueOfRender(row.cardNumber);
    ActiveCardExact(db, row.gr, i);
    assert IsDigitString(g + c);
    CleanDigits(g + c);
  }

  /** A card that has been replaced is refused: the GR number has no
      active card, or its active card carries another number. */
  lemma RetiredCardRefused(db: Db, i: nat)
    requires CardsValid(db)
    requires i < |db.students| && !db.students[i].active && db.students[i].gr >= 0
    ensures OnQrCodeScanned(db, db.students[i].qrData) in {NoActiveCard, Deactivated}
    ensures HandleGrNumberInput(db, db.students[i].qrData) in {NoActiveCard, Deactivated}
  {
    var row := db.students[i];
    var g := Render(row.gr);
    var c := Render(row.cardNumber);
    assert row.qrData == g + c;
    SplitQrOfPayload(row.gr, row.cardNumber);
    assert IsDigitString(g + c);
    CleanDigits(g + c);
    RetiredCardNotMatched(db, i);
  }

  /** The match step for a deactivated card's own GR and card spellings. */
  lemma RetiredCardNotMatched(db: Db, i: nat)
    requires CardsValid(db)
    requires i < |db.students| && !db.students[i].active && db.students[i].gr >= 0
    ensures ResolveCard(db, Render(db.students[i].gr), Render(db.students[i].cardNumber)) in {NoActiveCard, Deactivated}
  {
    var row := db.students[i];
    ValueOfRender(row.gr);
    ValueOfRender(row.cardNumber);
    match ActiveCard(db, row.gr)
    case None =>
    case Some((id, n)) =>
      var j :| 0 <= j < |db.students| && db.students[j].gr == row.gr && db.students[j].active
               && (id, n) == (db.students[j].id, db.students[j].cardNumber);
      assert j != i;
      assert n != row.cardNumber;
  }

  /** The issuing route accepts a negative GR number, but the payload it
      prints then starts with `-`: the camera refuses it and the scanner
      path treats it as a typed GR number. */
  lemma NegativeGrCardNotScannable(db: Db, i: nat)
    requires QrMatchesCard(db.students)
    requires i < |db.students| && db.students[i].gr < 0
    ensures OnQrCodeScanned(db, db.students[i].qrData) == NotNumeric
  {
    assert db.students[i].qrData[0] == '-';
  }

  // ------------------------------------------------------------- typed input

  datatype InputAction = Ignore | ProcessNow | ScheduleProcessing | KeepTyping

  /** `handleGrInputChange`: a value with a non-digit is dropped; a value
      ending in a line break would be processed at once; a digit string of
      at least six digits (one GR digit and five card digits) schedules
      processing; anything else is just stored. */
  function InputChange(value: string): (r: InputAction)
    ensures r == Ignore <==> !AllDigits(value)
    ensures r == ScheduleProcessing <==> AllDigits(value) && |value| >= 6
  {
    if |value| > 0 && !AllDigits(value) then Ignore
    else if |value| > 0 && (value[|value| - 1] == '\n' || value[|value| - 1] == '\r') then ProcessNow
    else if |value| >= 6 then ScheduleProcessing
    else KeepTyping
  }

  /** The immediate-processing branch is dead: a value ending in a line
      break contains a non-digit and is dropped first. */
  lemma InputNeverProcessedAtOnce(value: string)
    ensures InputChange(value) != ProcessNow
    ensures |value| > 0 && value[|value| - 1] in {'\n', '\r'} ==> InputChange(value) == Ignore
  {
  }

  /** The delayed check as written: the timer compares the value with the
      input state captured when the handler was created, which is the
      value shown before this change. `None` means nothing happens. */
  function ScheduledScanAsWritten(db: Db, captured: string, value: string): (r: Option<ScanOutcome>)
    ensures r.Some? ==> InputChange(value) == ScheduleProcessing && captured == value
    ensures r.Some? ==> r.value == HandleGrNumberInput(db, value)
  {
    if InputChange(value) == ScheduleProcessing && captured == value then Some(HandleGrNumberInput(db, value))
    else None
  }

  /** A change event always carries a value other than the one shown, so
      the delayed check never fires: a full payload typed by a scanner is
      not looked up until Enter is pressed. */
  lemma ScheduledScanNeverFires(db: Db, i: nat, shown: string)
    requires CardsValid(db)
    requires i < |db.students| && db.students[i].gr >= 0
    requires shown != db.students[i].qrData
    ensures InputChange(db.students[i].qrData) == ScheduleProcessing
    ensures ScheduledScanAsWritten(db, shown, db.students[i].qrData) == None
  {
    var row := db.students[i];
    RenderFiveDigits(row.cardNumber);
    assert row.qrData == Render(row.gr) + Render(row.cardNumber);
    assert AllDigits(row.qrData);
  }

  /** The delayed check as intended: when the timer runs it compares the
      value with the input's latest state, so it fires unless more input
      arrived in the meantime. */
  function ScheduledScan(db: Db, latest: string, value: string): (r: Option<ScanOutcome>)
    ensures r.Some? <==> InputChange(value) == ScheduleProcessing && latest == value
    ensures r.Some? ==> r.value == HandleGrNumberInput(db, value)
  {
    if InputChange(value) == ScheduleProcessing && latest == value then Some(HandleGrNumberInput(db, value))
    else None
  }

  /** With the latest state compared, a scanner that types an active
      card's payload and stops finds the card without pressing Enter. */
  lemma ScheduledScanFindsCard(db: Db, i: nat)
    requires CardsValid(db)
    requires i < |db.students| && db.students[i].active && db.students[i].gr >= 0
    ensures ScheduledScan(db, db.students[i].qrData, db.students[i].qrData) == Some(Found(db.students[i].id))
  {
    var row := db.students[i];
    RenderFiveDigits(row.cardNumber);
    assert row.qrData == Render(row.gr) + Render(row.cardNumber);
    assert AllDigits(row.qrData);
    IssuedCardScans(db, i);
  }

  /** `handleKeyPress`: Enter submits the stored input when there is one. */
  function EnterPressed(db: Db, stored: string): (r: Option<ScanOutcome>)
    ensures r.Some? <==> stored != ""
    ensures r.Some? ==> r.value == HandleGrNumberInput(db, stored)
  {
    if stored != "" then Some(HandleGrNumberInput(db, stored)) else None
  }

  /** Pressing Enter after a scanner typed an active card's payload (the
      path the stale timer leaves) finds the card. */
  lemma EnterFindsIssuedCard(db: Db, i: nat)
    requires CardsValid(db)
    requires i < |db.students| && db.students[i].active && db.students[i].gr >= 0
    ensures EnterPressed(db, db.students[i].qrData) == Some(Found(db.students[i].id))
  {
    var row := db.students[i];
    assert row.qrData == Render(row.gr) + Render(row.cardNumber);
    IssuedCardScans(db, i);
  }

  // ----------------------------------------------------------------- dialog

  /** `(daily_limit || 0) - (daily_spent || 0)`: an unset limit shows as 0. */
  function RemainingLimit(limit: Option<int>, spent: int): (r: int)
    ensures limit.Some? ==> r == limit.value - spent
    ensures limit.None? && spent >= 0 ==> r <= 0
  {
    (if limit.Some? then limit.value else 0) - spent
  }

  /** Right after a scan that reset the day, the dialog shows the whole
      limit as remaining; a card without a limit shows what it spent, negated. */
  lemma RemainingAfterScan(db: Db, id: nat, today: int)
    requires ScanStudent(db, id, today).Ok?
    ensures var row := db.students[FindStudent(db.students, id).value];
      var shown := ScanStudent(db, id, today).value.1;
      && ((NeedsLazyReset(row, today) && row.dailyLimit.Some?)
          ==> RemainingLimit(shown.dailyLimit, shown.dailySpent) == row.dailyLimit.value)
      && (row.dailyLimit.None? ==> RemainingLimit(shown.dailyLimit, shown.dailySpent) == -shown.dailySpent)
  {
  }

  /** `handleTransaction`'s guard on the amount field's text: `!amount`
      refuses the empty field and `parseFloat(amount) <= 0` a number that
      is not positive (NaN compares false and is not refused here). */
  predicate TransactionSubmitted(cardLoaded: bool, amountText: string) {
    && cardLoaded
    && amountText != ""
    && !(ParseFloat(amountText).Some? && ParseFloat(amountText).value <= 0)
  }

  /** With a card loaded, an empty amount field is never submitted, and an
      amount typed as the spelling of an integer is submitted exactly when
      it is positive. */
  lemma TypedAmountGuard(cardLoaded: bool, amount: int)
    ensures !TransactionSubmitted(cardLoaded, "")
    ensures TransactionSubmitted(cardLoaded, IntToString(amount)) <==> cardLoaded && amount > 0
  {
    ParseFloatOfIntToString(amount);
    assert |IntToString(amount)| > 0;
  }
}
