# School card ledger and settlements — a Dafny model

This project models the core of a school canteen payment system. The bank
issues each student a QR card bound to their GR (general register) number
and tops up the card's balance. Stores debit cards at a terminal. Stores
are then paid out their earnings through settlement requests.

The model covers the backend's ledger and settlement handlers
(`backend/src/index.js`) and the pure rules of three client pages: the
store terminal (`Dashboard.js`), the store's settlement page
(`Settlements.js`) and the bank's recharge page (`RechargeManagement.js`).

Every handler is a pure transition over an abstract database `Schema.Db`:

- `students`: one row per issued card, in table order. Re-issuing a card
  inserts a new row, so "the first row of a `SELECT`" becomes "the first
  matching index".
- `accounts`: the `student_accounts` balances.
- `recharges`: the recharge log. `transactions` is the debit log, which the
  model only reads.
- `storeSettlements`: each store's pending earnings.
- `settlements`: keyed by id.
- `logs`: the settlement log.
- Two serial counters.

A handler returns `Result<Db>`, whose `Err` case names the refusal. Days
and money are integers. `today`, `now` and the retention `cutoff` are
parameters.

Several routes are registered twice. Express answers with the first
registration, so only that one is modelled: the daily limit at line 654,
the recharge at 682, the GR lookup at 949, the student list at 920 and the
manual reset at 211.

Modules, in dependency order:

- `Outcomes`, `Seqs`, `Strings` and `Decimal` model the JavaScript and SQL
  primitives the handlers rely on: `rows[0]`, `DELETE … WHERE`,
  `toLowerCase`, `trim`, `${n}` and `parseInt`.
- `Schema` holds the rows, the card-table invariant `CardsValid` and the
  QR payload.
- `Cards` covers issuing, activation and the lookups.
- `Balance` covers the derived balance, recharges and the daily-limit
  setter, and a corrected recharge that adds to the stored balance.
- `DailyReset` covers the stale-only sweep, the unconditional reset and the
  lazy reset on `/scan`.
- `SettlementEngine` covers request, amend, pay and create. Its invariant
  `LedgerValid` says:
  - 0 ≤ settled ≤ total;
  - pending = total − settled;
  - every log entry refers to an existing settlement;
  - each settlement's paid amount equals the sum of its payment log
    entries.
- `Retention` covers the all-or-nothing purge and what it does to the
  stored balances.
- `StoreDashboard`, `StoreSettlements` and `RechargeManagement` cover the
  client rules. The client lemmas are stated against the server model, so
  they show where client and server agree and where they do not.

## Model

| member | source | states |
|---|---|---|
| Decimal.Render | backend/src/index.js:501 | `${n}` of a non-negative integer is a non-empty digit string without a leading zero (JavaScript prints plain digits below 10^21, which covers every GR and card number stored) |
| Decimal.ValueOfRender | backend/src/index.js:501 | reading back the decimal text that `${n}` writes gives `n` again |
| Decimal.RenderFiveDigits | backend/src/index.js:479 | every card number in 10000..99999 is written with exactly five digits |
| Decimal.ParseInt | backend/src/index.js:470 | `parseInt` of a plain digit string is the number those digits denote |
| Decimal.ParseIntOfIntToString | backend/src/index.js:470-501 | `parseInt` reads back every integer the template literal writes, negative ones included (in JavaScript, for magnitudes below 2^53) |
| Decimal.ParseFloat | store-frontend/src/pages/Dashboard.js:106 | `parseFloat` of a plain digit string is the number those digits denote |
| Decimal.ParseFloatOfIntToString | store-frontend/src/pages/Dashboard.js:106 | `parseFloat` reads back every integer spelling, negative ones included |
| Strings.ToLower | backend/src/index.js:1240 | `toLowerCase` keeps the length and lowers each character on its own |
| Strings.Trim | store-frontend/src/pages/Dashboard.js:223 | the result is the infix of the input that starts after the leading white space; everything after it is white space, and it starts and ends with a non-blank |
| Strings.TrimDigits | store-frontend/src/pages/Dashboard.js:223 | a digit string is left unchanged by `trim` |
| Seqs.FirstWhere | backend/src/index.js:1575 | `rows[0]` of a query is the first row that matches; no matching row means no result |
| Seqs.Filter | backend/src/index.js:90-94 | a `DELETE … WHERE` keeps exactly the rows that fail the test, with the same multiplicities |
| Cards.FirstUnusedDraw | backend/src/index.js:476-485 | the card-number loop ends on the first draw that no existing card carries; every draw it skipped was in use |
| Cards.IssueParsed | backend/src/index.js:476-528 | accepted iff some draw is unused, the GR number fits the INTEGER column and it has no active card; each refusal in source order; on success exactly one active card is added, with an unused number in 10000..99999, QR payload = GR ++ card number, zero balance, plus its account row |
| Cards.IssueCard | backend/src/index.js:461-473 | missing form fields are refused first; then a GR number that `parseInt` rejects |
| Cards.AppendCardKeepsCardsValid | backend/src/index.js:509-528 | adding a fresh active card whose GR number has no active card and whose number is unused keeps the card invariant |
| Cards.IssueCardKeepsCardsValid | backend/src/index.js:487-528 | issuing preserves unique ids, at most one active card per GR number, unique in-range card numbers, INTEGER-range GR numbers and QR payloads |
| Cards.IssuedAccountStartsAtZero | backend/src/index.js:520-528 | the new card's account balance is 0 |
| Cards.ToggleActive | backend/src/index.js:1559-1609 | an unknown id is not found; activation is refused iff another card of the same GR number is active; deactivation is never refused; only `is_active` of that card changes |
| Cards.ToggleKeepsCardsValid | backend/src/index.js:1565-1598 | toggling preserves the card invariant, in particular at most one active card per GR number |
| Cards.ActiveCard | backend/src/index.js:607-629 | not found iff the GR number has no active card; otherwise the id and number of an active card of that GR number |
| Cards.ActiveCardExact | backend/src/index.js:612-624 | under the invariant, the lookup answers a card iff that card is the GR number's active card |
| Cards.GrLookup | backend/src/index.js:949-974 | answers only an active card of the GR number, with its account balance; not found iff there is no active card |
| Cards.StudentList | backend/src/index.js:920-946 | the list holds exactly the cards matching the optional GR filter, each joined with its account balance |
| Balance.DerivedBalance | backend/src/index.js:860-883 | the balance route's answer: recharges minus completed debits, 0 for a card with no ledger rows |
| Balance.DebitCountsOnlyWhenCompleted | backend/src/index.js:866-874 | recording a debit lowers that card's balance by its amount iff its status is `completed`; other cards are unaffected |
| Balance.ApplyRecharge | backend/src/index.js:682-762 | not found iff the card or account row is missing; otherwise one recharge row is appended, the derived balance rises by the amount, and both stored balances equal the derived balance |
| Balance.ApplyRechargeStored | backend/src/index.js:720-748 | the corrected recharge: refused exactly as the route refuses; otherwise the stored balances become the stored account balance plus the amount, the ledger balance rises by the amount, and a materialised card stays materialised |
| Balance.StoredRechargeAgrees | backend/src/index.js:720-748 | on a materialised card the corrected recharge is the route's recharge |
| Balance.RechargeKeepsOtherBalances | backend/src/index.js:689-748 | a recharge leaves every other card's derived balance and its materialised balances unchanged |
| Balance.SetDailyLimit | backend/src/index.js:654-679 | not found iff no card has the id; otherwise only the daily limit of that card's rows changes |
| DailyReset.ResetStale | backend/src/index.js:39-56 | only rows whose last reset is before today are reset, to spent 0 and reset date today; rows never reset are untouched |
| DailyReset.ResetAll | backend/src/index.js:58-84 | every row gets spent 0 and reset date today |
| DailyReset.ResetStaleLeavesNothingStale | backend/src/index.js:42-47 | after the sweep no row is stale, and rows with a NULL date keep it |
| DailyReset.ResetStaleIdempotent | backend/src/index.js:42-47 | sweeping twice on one day equals sweeping once |
| DailyReset.ResetAllIdempotent | backend/src/index.js:63-68 | the unconditional reset is idempotent and absorbs a prior sweep |
| DailyReset.ResetAllVersusStale | backend/src/index.js:42-68 | the two resets agree on a row iff it was stale or already cleared for today |
| DailyReset.ScanStudent | backend/src/index.js:557-604 | not found iff no card has the id; a card never reset or last reset before today is reset and shown with spent 0; otherwise nothing is written |
| DailyReset.ScanThenSweepKeepsCard | backend/src/index.js:585-597 | a sweep after a scan on the same day does not reset that card again |
| DailyReset.SweepThenScan | backend/src/index.js:585-597 | after the sweep, a scan writes nothing for a card with a reset date but still resets a card whose date is NULL |
| SettlementEngine.RequestSettlement | backend/src/index.js:1112-1160 | accepted iff store id and amount are truthy and positive, the store has a pending row, and amount ≤ its pending earnings; creates a `requested` settlement with total = pending = amount and leaves the store's pending amount unchanged |
| SettlementEngine.RequestKeepsLedgerValid | backend/src/index.js:1138-1146 | a request uses a fresh id and keeps the settlement invariant |
| SettlementEngine.RequestsDoNotEarmark | backend/src/index.js:1131-1146 | a second request for the whole pending amount is still accepted, so open requests can exceed what the store is owed |
| SettlementEngine.AmendSettlement | backend/src/index.js:1218-1290 | refuses a non-positive amount, a missing settlement or store row, and a status other than `requested`; on success only total and pending of that settlement change, both to the amount, and amount ≤ the store's pending |
| SettlementEngine.AmendCeilingSubsumed | backend/src/index.js:1248-1266 | on a valid requested settlement, an amendment is accepted iff 0 < amount ≤ the store's pending; the original+pending ceiling never decides |
| SettlementEngine.AmendKeepsLedgerValid | backend/src/index.js:1268-1276 | an accepted amendment keeps the settlement invariant |
| SettlementEngine.Pay | backend/src/index.js:1293-1360 | accepted iff the settlement exists, does not read `completed` (case-insensitively) and amount ≤ total − settled; each refusal is named; on success settled grows by the amount, pending = total − settled, status is `completed` iff settled ≥ total and `pending` otherwise, and exactly one payment log entry is appended |
| SettlementEngine.PayAcceptsNegativeAmount | backend/src/index.js:1316-1319 | as written, a negative payment on an open settlement is accepted and lowers the paid amount, below zero if large enough |
| SettlementEngine.PayChecked | backend/src/index.js:1316-1331 | with a positivity guard, an accepted payment strictly increases the paid amount |
| SettlementEngine.PayCheckedKeepsLedgerValid | backend/src/index.js:1321-1346 | with the guard, a payment keeps 0 ≤ settled ≤ total and the paid amount equal to the sum of its payment entries |
| SettlementEngine.PayInFullCompletes | backend/src/index.js:1316-1331 | paying the exact remainder completes the settlement, and a completed settlement refuses further payment |
| SettlementEngine.CreateSettlement | backend/src/index.js:1363-1400 | adds a `pending` settlement with nothing paid under the next id, and one `create` log entry for it |
| SettlementEngine.CreateKeepsLedgerValid | backend/src/index.js:1369-1385 | with a non-negative total, creation keeps the settlement invariant; the `create` entry counts as no payment |
| Retention.Pruned | backend/src/index.js:90-123 | exactly the rows dated before the cutoff are removed from logs, settlements, store settlements, transactions and recharges; cards and accounts are untouched |
| Retention.Purge | backend/src/index.js:87-147 | fails iff a log entry that survives refers to a settlement that is deleted, and then nothing changes; otherwise the pruned store |
| Retention.PurgeIdempotent | backend/src/index.js:87-147 | a second purge with the same cutoff changes nothing |
| Retention.PrunedIsFixpoint | backend/src/index.js:90-123 | a store with no rows older than the cutoff is left as it is by the purge |
| Retention.RecentPaymentBlocksPurge | backend/src/index.js:90-101 | a settlement opened before the cutoff and paid after it blocks the purge at that cutoff |
| Retention.PurgeKeepsLedgerValid | backend/src/index.js:90-101 | if log entries postdate their settlements, a successful purge keeps the settlement invariant |
| Retention.PurgeKeepsStoredBalances | backend/src/index.js:113-124 | the purge leaves both stored balances as they were, so a card stays materialised iff deleting its old ledger rows leaves its ledger balance unchanged |
| Retention.PurgeLosesOldRecharge | backend/src/index.js:113-124 | a card holding 500 from an old recharge is no longer materialised after the purge, and a later recharge of 100 stores 100 |
| Retention.StoredRechargeSurvivesPurge | backend/src/index.js:720-721 | with the corrected recharge, a recharge after a purge stores the card's pre-purge ledger balance plus the amount |
| StoreDashboard.CleanInput | store-frontend/src/pages/Dashboard.js:223-224 | the cleaned text contains no line feed, has no white space at either end and is no longer than the input |
| StoreDashboard.CleanPlainText | store-frontend/src/pages/Dashboard.js:223-224 | text without noise positions or white space is left unchanged: cleaning removes only noise and blanks |
| StoreDashboard.CleanDigits | store-frontend/src/pages/Dashboard.js:223 | a bare digit string survives cleaning unchanged |
| StoreDashboard.CleanScannerWrapping | store-frontend/src/pages/Dashboard.js:223 | a leading quote with a trailing carriage return, or a trailing line feed, is stripped from a digit payload |
| StoreDashboard.SplitQr | store-frontend/src/pages/Dashboard.js:227-235 | refused iff the payload has at most 5 characters; otherwise GR part ++ card part = payload and the card part has 5 characters |
| Schema.QrPayloadLayout | backend/src/index.js:501 | the payload ends with the card number's five digits, preceded by the GR number's spelling; it is all digits unless the GR number is negative |
| StoreDashboard.SplitQrOfPayload | store-frontend/src/pages/Dashboard.js:229-231 | splitting GR ++ card number gives back both spellings when the card number is in 10000..99999 |
| StoreDashboard.ResolveCard | store-frontend/src/pages/Dashboard.js:238-264 | the lookup fails iff the GR text is beyond the INTEGER range, which the active-card route cannot bind; otherwise no active card iff the GR number has none, and found iff the GR number's active card has the integer value of the card part as its number, and then it is that card |
| StoreDashboard.OnQrCodeScanned | store-frontend/src/pages/Dashboard.js:306-343 | non-digit text is refused; an all-digit text of at most 5 characters is an invalid format; a longer digit text is answered by matching `slice(0, -5)` as the GR number and `slice(-5)` as the card number |
| StoreDashboard.HandleGrNumberInput | store-frontend/src/pages/Dashboard.js:217-265 | no lookup iff the cleaned text is empty; a cleaned text with a non-digit goes to the GR lookup as typed; a cleaned digit text of at most 5 characters is an invalid format, and a longer one is answered by matching its GR part and its last five digits |
| StoreDashboard.IssuedCardScans | store-frontend/src/pages/Dashboard.js:306-330 | the printed QR payload of an active card with a non-negative GR number is found, on both paths |
| StoreDashboard.RetiredCardRefused | store-frontend/src/pages/Dashboard.js:238-243 | the QR payload of a deactivated card is refused as deactivated or as having no active card |
| StoreDashboard.NegativeGrCardNotScannable | store-frontend/src/pages/Dashboard.js:310-312 | a card issued for a negative GR number has a payload the camera refuses as not numeric |
| StoreDashboard.InputChange | store-frontend/src/pages/Dashboard.js:271-296 | a value with a non-digit is ignored; processing is scheduled iff the value is all digits with at least 6 of them |
| StoreDashboard.InputNeverProcessedAtOnce | store-frontend/src/pages/Dashboard.js:284-285 | the immediate-processing branch for a trailing line break is unreachable |
| StoreDashboard.ScheduledScanAsWritten | store-frontend/src/pages/Dashboard.js:287-294 | the delayed check fires only if the value equals the input state captured before the change |
| StoreDashboard.ScheduledScanNeverFires | store-frontend/src/pages/Dashboard.js:287-294 | for any change event the delayed check never looks up the payload |
| StoreDashboard.ScheduledScan | store-frontend/src/pages/Dashboard.js:287-294 | the intended delayed check fires iff processing was scheduled and no later input arrived |
| StoreDashboard.ScheduledScanFindsCard | store-frontend/src/pages/Dashboard.js:287-294 | with the intended check, a scanned active card is found without pressing Enter |
| StoreDashboard.EnterFindsIssuedCard | store-frontend/src/pages/Dashboard.js:298-304 | pressing Enter on an active card's scanned payload finds that card |
| StoreDashboard.RemainingLimit | store-frontend/src/pages/Dashboard.js:714 | with a limit set the remaining amount is limit − spent; an unset limit counts as 0, so nothing positive remains |
| StoreDashboard.RemainingAfterScan | store-frontend/src/pages/Dashboard.js:714 | after a scan that reset the day, the remaining limit shown is the whole limit; with no limit set it is minus the amount spent |
| StoreDashboard.TypedAmountGuard | store-frontend/src/pages/Dashboard.js:106-108 | an empty amount field is never submitted; a typed integer amount is submitted iff a card is loaded and the amount is positive |
| StoreSettlements.RequestedSumBounds | store-frontend/src/pages/Settlements.js:116 | the shown requested total is 0 when no entry is `requested` and never negative when no total is negative |
| StoreSettlements.RequestGuardMatchesServer | store-frontend/src/pages/Settlements.js:205-213 | with the server's pending amount shown, the page's request guard accepts exactly what the request route accepts |
| StoreSettlements.DisabledButtonBlocksRequests | store-frontend/src/pages/Settlements.js:383 | when the button is disabled, no amount could pass the request guard |
| StoreSettlements.RequestedSumAfterRequest | store-frontend/src/pages/Settlements.js:221-222 | prepending the new request and adding its amount to the shown total agree |
| StoreSettlements.EditActionMatchesServerState | store-frontend/src/pages/Settlements.js:461 | the edit action is shown iff the amend route would not refuse the settlement's state |
| StoreSettlements.ServerAmendPassesEditGuard | store-frontend/src/pages/Settlements.js:149-165 | every amendment the server accepts passes the page's guard |
| StoreSettlements.EditGuardLooserThanServer | store-frontend/src/pages/Settlements.js:154-165 | an amount above the store's pending but within original + pending passes the page and is refused by the server |
| StoreSettlements.ReplaceById | store-frontend/src/pages/Settlements.js:172-176 | the list keeps its length; only entries with the edited id are replaced |
| StoreSettlements.RequestedAfterEditMatchesList | store-frontend/src/pages/Settlements.js:179-182 | the incrementally updated requested total equals the sum of `requested` totals over the updated list |
| RechargeManagement.RechargeGuardIsOnlyBarrier | frontend/src/components/RechargeManagement.js:244-247 | the page refuses a non-positive amount, which the recharge route would accept, lowering or keeping the balance |
| RechargeManagement.AllowedLimitIsStored | frontend/src/components/RechargeManagement.js:290-293 | zero passes the limit guard and an empty field does not; a limit that passes is stored unchanged on the card |
| RechargeManagement.UpdateStudentBalance | frontend/src/components/RechargeManagement.js:266-276 | only the selected card's balance changes; length, other entries and other fields are kept |
| RechargeManagement.UpdateStudentDailyLimit | frontend/src/components/RechargeManagement.js:309-319 | only the selected card's daily limit changes; length, other entries and other fields are kept |
| RechargeManagement.RechargedEntryShowsLedger | frontend/src/components/RechargeManagement.js:266-276 | after a recharge the card's entry shows the new derived balance |
| RechargeManagement.ShortGrNeverSearched | frontend/src/components/RechargeManagement.js:224 | a search starts only for an empty query or one of at least three characters, so a GR number below 100 typed alone is never searched |
| RechargeManagement.SearchStudents | frontend/src/components/RechargeManagement.js:105-160 | an empty query shows all students; a NaN query is rejected; results are shown iff the query passes `isNaN` and parses to a number in the INTEGER range that the route's cast accepts, and they are exactly the cards of that GR number, with their derived balances; every other query fails |
| RechargeManagement.SearchByDigitsFindsCards | frontend/src/components/RechargeManagement.js:124-151 | a digit query is searched iff its number fits the INTEGER column, and then shows a card iff the card has that GR number |
| RechargeManagement.BlankQueryFails | frontend/src/components/RechargeManagement.js:117-130 | a query of spaces passes `isNaN` but the search fails |
| RechargeManagement.TogglePayload | frontend/src/components/RechargeManagement.js:345-346 | the toggle sends the opposite of the shown status |
| RechargeManagement.ToggleFlipsCard | frontend/src/components/RechargeManagement.js:340-346 | the toggle always deactivates an active card; it activates an inactive one iff no other card of its GR number is active; an accepted toggle flips the card |

## Left out

- HTTP details are not modelled: routing, status codes, message texts and the JSON shapes of answers. The same goes for JWT and bcrypt authentication and role checks, helmet and CORS, and environment configuration.
- Socket.IO events, the cron and node-schedule timing, and the "next reset" clock computation are left out. `today`, `now` and `cutoff` are plain day numbers.
- QR SVG and PNG rendering, PDF generation, photo uploads and filesystem calls are left out.
- The debit route, store statistics and the store pending-amount route are not shown, so the model does not cover them. `transactions` and each store's pending earnings are inputs.
- The analytics routes, `daily-limit-status` and the settlement listing routes are read-only reports and are left out.
- The duplicate registrations at lines 977, 994, 1012, 1045 and 1612 are never reached and are left out. `force-reset-daily-limits` (line 262) calls the same function as the manual reset, so `DailyReset.ResetAll` covers it.
- Concurrency and row locking are left out. Handlers are atomic transitions.
- The request handler returns early inside an open transaction without rolling it back; this is not modelled.
- Money and amounts are integers. Floating point is not modelled, and `parseFloat` only on integer spellings (see `Decimal.ParseFloat` below). JavaScript coercion of NUMERIC columns returned as strings is not modelled. A missing or NaN amount in a request body is not modelled either.
- The database schema is not visible. Column defaults are assumed: a new card has limit NULL, spent 0 and reset date NULL; a new settlement has paid 0; a log entry is dated `now`.
- The only foreign key modelled is from settlement logs to settlements.
- IssueParsed: the source draws random card numbers until one is unused, which may not terminate. The model takes a finite sequence of candidate draws and reports `CardDrawsExhausted` when all are in use.
- Strings.ToLower: folds only the ASCII letters, not the full Unicode case mapping.
- Strings.Trim: removes the common white-space characters, not every Unicode space separator.
- RechargeManagement.SearchStudents: `isNaN` is modelled for blank text and signed decimal integers. Other forms `Number` accepts (fractions, exponents, hex, `Infinity`) count as NaN in the model.
- RechargeManagement.SearchStudents: `parseInt(query, 10)` is modelled by the radix-free `ParseInt`. The two agree on every query that passes `isNaN` in the model.
- Decimal.Render: JavaScript writes `${n}` in exponent form from 10^21 on; the model writes plain digits for every natural. Every number rendered by the handlers is a card number or an INTEGER-range GR number, far below that.
- Decimal.ValueOfRender: the read-back is stated for every natural; in JavaScript it holds only where `${n}` prints plain digits, below 10^21.
- Decimal.ParseInt: JavaScript's `parseInt` returns a double, which rounds digit strings above 2^53; the model reads them exactly. Any GR number beyond the INTEGER range is refused by `Cards.IssueParsed` either way.
- Decimal.ParseIntOfIntToString: holds in JavaScript only for magnitudes below 2^53 (for example `parseInt` of `${10^21}` is 1); the model states it for every integer.
- Decimal.ParseFloat: reads integer spellings only; fractions, exponents and `Infinity` are not modelled.
- StoreDashboard.TypedAmountGuard: the amount field is a number input, so its text is empty or a number; the model considers integer spellings only.
- The `gr_number` column is taken to be a PostgreSQL INTEGER, as the list route's `::integer` cast indicates. Binding a number beyond its range fails the query: the active-card route and the list route then answer with a server error, which the model reports as `LookupFailed` and `SearchFailed`.
- StoreDashboard.HandleGrNumberInput: a typed non-numeric GR number goes to the GR lookup as `ManualLookup(text)`. How PostgreSQL then casts that text is not modelled.
- DailyReset.ScanStudent: compares whole days. The lazy reset uses the server's local midnight, while the sweep uses the database's `CURRENT_DATE`; the model assumes both give the same day.
- SettlementEngine.CreateKeepsLedgerValid: requires a non-negative total, because the create route does not validate the total. The route does not check the store either.
- Retention.PurgeKeepsLedgerValid: assumes log entries are never dated before their settlement. The clock that makes this true is not modelled.
- StoreSettlements.RequestGuardMatchesServer: assumes the page shows the store's pending amount as the server holds it. That amount comes from the store pending-amount route, which is not part of this model.
- StoreSettlements.RequestedAfterEditMatchesList: assumes settlement ids are unique in the list and that the server answers with a row still `requested`.
- Ordering by `created_at`, and ties between equal timestamps, are not modelled. The student list is newest-first by table position.

## Findings

| source | as written | input that shows it | evidently intended | confidence | as-written member | corrected member |
|---|---|---|---|---|---|---|
| backend/src/index.js:1316-1319 | the pay route bounds the amount only from above (`amount > remaining`) | a `requested` settlement with total 100 and nothing paid, then a payment of -50: accepted, leaving settled -50, pending 150, status `pending`, and a -50 payment log entry | a payment must be positive, as the amend route requires of its amount | high; not executed | SettlementEngine.PayAcceptsNegativeAmount | SettlementEngine.PayCheckedKeepsLedgerValid |
| backend/src/index.js:113-124 | the purge deletes old recharges and debits but leaves both stored balances, and the recharge route then recomputes the balance from the rows that are left | a card with stored balance 500 from one recharge dated day 0, purged at day 10 and then recharged with 100: the stored balance becomes 100 instead of 600 | deleting ledger rows must not change a balance: the recharge should add to the stored balance (or the purge should carry the deleted rows forward) | high; not executed | Retention.PurgeLosesOldRecharge | Retention.StoredRechargeSurvivesPurge |
| store-frontend/src/pages/Dashboard.js:287-294 | the delayed check compares the new value with `grNumberInput` captured when the handler was created, which is the value before the change | input shows `12345`, the scanner types `6`: the timer tests `"12345" === "123456"`, which is false, so the payload is never looked up until Enter | process the payload once no further input has arrived | medium; not executed | StoreDashboard.ScheduledScanNeverFires | StoreDashboard.ScheduledScanFindsCard |

The client lemmas keep using the route's recharge, `Balance.ApplyRecharge`.
`Balance.StoredRechargeAgrees` shows that the corrected recharge is the same
function on every card whose stored balance is materialised, so those
lemmas hold for it on those cards.
