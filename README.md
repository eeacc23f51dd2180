# HelloVoter backend core in Dafny

A Dafny model of three pieces of the HelloVoter JavaScript server:

- the CSV exports of `server/app/services/export.js`. `exportAmbassadors` writes one row per
  ambassador: its identity and contact fields, its claimed triplers counted by status, and its
  payouts totalled. `exportTriplers` writes one row per claims relationship (ambassador → tripler);
- the record serializers of `server/app/routes/api/v1/va/serializers.js`. They turn an ambassador, tripler
  or payout node into the flat record the API answers with: copied fields, the parsed address,
  the display address, the display name and the parsed JSON blobs;
- the `/public/onboard` handler of `server/app/routes/api/v1/public/onboard.js`. It is a ladder of
  guarded early returns over the request body and two database lookups, ending in an invite code.

Modules:

- `Js` (`js.dfy`) holds the slice of JavaScript the code relies on. A `Value` datatype stands for
  JavaScript values. On top of it: truthiness (`!!v`), property reads where an absent key reads
  as `undefined`, `String(v)`, and `Array.prototype.join`, which turns `null` and `undefined`
  into empty text, and `split`, proved to undo `join`. Host services stay abstract as fields of a
  `Runtime` value: `JSON.parse` (`None` when it throws), date text, money text, currency formatting,
  `Number(s)`, and the `toString()` text of objects the database driver returns.
- `Serializers` (`serializers.dfy`). The `forEach` loops of `_displayAddress`, `serializeAmbassador`,
  `serializeTripler` and `serializeNeo4JTripler` are methods with `for` loops. Each is proved equal
  to a function that specifies the record it builds. `_displayName` and `serializePayout` are
  functions. A `Reader` reads fields either through a node's `get(k)` or from a plain query row
  with `row[k]`. Both tripler serializers are stated on it, so the two can be proved to agree.
- `Export` (`export.dfy`). Each export is a method with the source's nested loops. The counting loop,
  the payout loop, the row building and the inner loop over claims are helper methods, each
  proved against a specification function. The text is specified as the list of pieces appended
  to it. A header piece is the header array turned into a string, appended with no newline
  before it. A row piece is a newline followed by the comma-joined fields.
- `Onboard` (`onboard.dfy`). The handler is a total function. Its inputs are the body, the first
  value of the form lookup and the first value of the turf lookup. Each lookup is `None` when the
  query has no row. The result is an error response or the invite code.

Money is in integer cents: `payout_per_tripler` is a parameter `unit`, and the totals are sums of it.
The printed money columns are the abstract `moneyText` of those cent totals (see "## Left out" for
how this differs from the source's floating-point running sum).

Points where the code does something other than what a reader of its purpose would expect; the
model follows the code:

- A CSV report normally carries one header line. The tripler export emits one per ambassador with
  claims: the inner `let x` (`export.js:89`) shadows the outer loop index, so the `x === 0` test
  (`export.js:123`) fires at the first claim of every such ambassador. The header is also appended
  with no newline, so from the second ambassador on it is glued to the end of the previous row.
  `Export.TriplerPiecesShape` and `Export.RepeatedHeader` state this behaviour.
  `Export.TriplerReport` is the single-header report for comparison: it has the same rows and one header.
- The claims and payouts of each ambassador are sequences, so they are always present; the code
  would throw on a missing relationship list, which the model does not represent.
- Fields are joined with `,` and never quoted, so a field holding a comma or a newline shifts the
  columns of its row. `Export.AmbassadorRowSplits` and `Export.TriplerRowSplits` show that the
  rows split back into their fields when no field holds a comma.
- The exports can throw: the code reads `address.address1` without a guard and parses JSON blobs
  without a guard. These are preconditions in the model (`AmbassadorExportable`,
  `TriplerExportable`, `Parses`), as the code demands. So is `serializePayout`'s unguarded read of
  `payout.amount.low` (`PayoutSerializable`).

## Model

| member | source | states |
|---|---|---|
| Js.JoinCountsSeparators | server/app/services/export.js:40-54 | joining comma-free fields with `,` puts exactly one comma fewer than there are fields into the row |
| Js.SplitJoin | server/app/services/export.js:54 | splitting the joined row at its separator gives back the fields, when no field holds the separator |
| Serializers.PresentValues | server/app/routes/api/v1/va/serializers.js:3-5 | the values kept are truthy, and there are no more of them than keys |
| Serializers.DisplayAddressOf | server/app/routes/api/v1/va/serializers.js:1-7 | the `forEach`/`push` loop returns `''` for a falsy address, else the display address (its contents are given by the lemmas below) |
| Serializers.PresentAddressValues | server/app/routes/api/v1/va/serializers.js:3-5 | the values kept are `address1`, `city`, `state`, `zip`, in that order, each one only when truthy |
| Serializers.PresentValuesOnlyKeys | server/app/routes/api/v1/va/serializers.js:3-5 | two addresses that agree on the listed keys give the same list of values |
| Serializers.DisplayAddressOnlyAddressKeys | server/app/routes/api/v1/va/serializers.js:1-7 | no key other than the four address keys affects the display address |
| Serializers.DisplayAddressNoKeys | server/app/routes/api/v1/va/serializers.js:3-6 | an address with none of the four keys truthy displays as `''` |
| Serializers.DisplayAddressAllKeys | server/app/routes/api/v1/va/serializers.js:3-6 | four non-empty string parts display as `address1, city, state, zip`, whatever other keys hold |
| Serializers.DisplayAddressPartial | server/app/routes/api/v1/va/serializers.js:3-6 | an address with only `city` and `zip` displays as `city, zip`; `address1` and `state` are omitted |
| Serializers.DisplayName | server/app/routes/api/v1/va/serializers.js:9-12 | a falsy last name returns the first name unchanged; otherwise the result is the string of both names' join texts separated by one space |
| Serializers.DisplayNameOfStrings | server/app/routes/api/v1/va/serializers.js:9-12 | for string names: the first name when the last name is empty, else `first + " " + last` |
| Serializers.DisplayNameWithoutLast | server/app/routes/api/v1/va/serializers.js:9-10 | a `null` or `undefined` last name returns the first name unchanged, whatever its type |
| Serializers.ParseBlob | server/app/routes/api/v1/va/serializers.js:17-20 | a falsy blob gives `null` (a truthy one gives what `JSON.parse` gives) |
| Serializers.DisplayAddressField | server/app/routes/api/v1/va/serializers.js:18 | `display_address` is `null` exactly when the parsed address is falsy |
| Serializers.CopyFieldsShape | server/app/routes/api/v1/va/serializers.js:16 | copying a key list gives a record with exactly those keys, each holding the value read for it |
| Serializers.CopyFieldsOnlyReads | server/app/routes/api/v1/va/serializers.js:36 | the copied record depends only on the values read |
| Serializers.DerivedKeepCopies | server/app/routes/api/v1/va/serializers.js:16-20 | the four derived fields, written under keys outside the copied list, leave every copied field intact and add exactly four keys |
| Serializers.CopiedKeyKept | server/app/routes/api/v1/va/serializers.js:16-20 | a copied key not overwritten afterwards reads the copied value |
| Serializers.SerializeAmbassador | server/app/routes/api/v1/va/serializers.js:14-22 | the method builds exactly the ambassador record: the 13 copies, then `address`, `display_address`, `display_name`, `quiz_results` |
| Serializers.AmbassadorRecordFields | server/app/routes/api/v1/va/serializers.js:16-21 | the record holds exactly the 13 listed keys plus the four derived ones, and each listed key holds `get(k)` verbatim |
| Serializers.AmbassadorRecordColumns | server/app/routes/api/v1/va/serializers.js:16-17 | `external_id`, `first_name`, `last_name`, `email`, `phone` read the node's own values, and `address` is the parsed blob |
| Serializers.AmbassadorRecordDerived | server/app/routes/api/v1/va/serializers.js:17-20 | `address` is `null` for a falsy blob, else the parse; `display_address` is `null` exactly when `address` is falsy, else `_displayAddress(address)`; `display_name` is `_displayName(first, last)`; `quiz_results` is `null` when falsy |
| Serializers.SerializeTripler | server/app/routes/api/v1/va/serializers.js:34-42 | the method builds exactly the tripler record read through `get(k)` |
| Serializers.SerializeNeo4JTripler | server/app/routes/api/v1/va/serializers.js:44-52 | the method builds exactly the tripler record read from the raw row's properties |
| Serializers.TriplerRecordShape | server/app/routes/api/v1/va/serializers.js:36-40 | exactly the 7 listed keys verbatim plus four derived ones; `address` and `display_address` as for ambassadors; `triplees` is `null` for a falsy blob |
| Serializers.TriplerRecordColumns | server/app/routes/api/v1/va/serializers.js:36-40 | `first_name`, `last_name`, `status`, `phone` read the node's values; `address` and `triplees` are the parsed blobs |
| Serializers.TriplerRecordOnlyReads | server/app/routes/api/v1/va/serializers.js:34-52 | the tripler record depends on nothing but the values read, and parses whenever the other one does |
| Serializers.Neo4JTriplerMatchesTripler | server/app/routes/api/v1/va/serializers.js:34-52 | `serializeNeo4JTripler(row)` equals `serializeTripler(node)` whenever `node.get(k) == row[k]` for every key |
| Serializers.StampOf | server/app/routes/api/v1/va/serializers.js:28-29 | a timestamp field is `null` exactly when the input is falsy; otherwise the date is built from the value's own `toString()` text: a driver object's own text, a non-empty string itself |
| Serializers.SerializePayout | server/app/routes/api/v1/va/serializers.js:24-32 | `status` passes through unchanged |
| Serializers.PayoutAbsentFieldsAreNull | server/app/routes/api/v1/va/serializers.js:28-30 | absent `disbursed_at`, `settled_at` and `error` come out as `null` |
| Serializers.PayoutAmountOnlyLow | server/app/routes/api/v1/va/serializers.js:26 | the formatted amount depends on `amount.low` alone |
| Export.StatusCount | server/app/services/export.js:14-23 | a status count never exceeds the number of nodes |
| Export.StatusCountIsPositions | server/app/services/export.js:14-23 | the running count equals the number of positions whose status is exactly the string |
| Export.BucketsPartitionRecognized | server/app/services/export.js:11-23 | `unconfirmed + pending + confirmed` equals the number of triplers whose status is one of the three, and is at most the number of claims |
| Export.UnknownStatusIgnored | server/app/services/export.js:14-23 | a tripler with any other status changes no bucket, wherever it stands |
| Export.BucketExample | server/app/services/export.js:14-23 | statuses confirmed, confirmed, pending, bogus count as confirmed 2, pending 1, unconfirmed 0 |
| Export.TotalsAreMultiples | server/app/services/export.js:24-38 | `total_earned` is the number of payouts times the unit; `total_sent_to_bank` is the number of settled payouts times the unit |
| Export.SentAtMostEarned | server/app/services/export.js:25-38 | with a non-negative unit, `0 <= total_sent_to_bank <= total_earned` |
| Export.TotalsExample | server/app/services/export.js:29-38 | one settled and one disbursed payout earn twice the unit, and once the unit is sent to the bank |
| Export.CountTriplerStatuses | server/app/services/export.js:11-23 | the `else if` loop leaves each counter equal to the number of claimed triplers with exactly that status |
| Export.TotalPayouts | server/app/services/export.js:24-38 | the payout loop leaves the two running totals equal to the sums of the unit over settled payouts and over all payouts |
| Export.AmbassadorLine | server/app/services/export.js:8-54 | the fields built from the serialized ambassador equal the 13 row fields stated on the node: external_id, created_at, names, address1, zip, email, phone, the three counts, sent, earned |
| Export.AmbassadorRowSplits | server/app/services/export.js:40-54 | an ambassador's row has 13 columns; the three count columns never hold a comma; when no field holds one, the row splits back into its fields |
| Export.AmbassadorColumnsCounted | server/app/services/export.js:40-54 | columns 9 to 13 are the three bucket counts, the settled count times the unit and the payout count times the unit |
| Export.DisbursedNotEmitted | server/app/services/export.js:27-34 | two ambassadors whose payouts agree in number and in settled count get the same row: the `disbursed` and `settled` counters are never emitted |
| Export.ReportFirst | server/app/services/export.js:72-76 | the first row appends the header, then a newline and the row |
| Export.ReportNext | server/app/services/export.js:76 | every later row appends a newline and the row, so `text + '\n' + line` extends the report by exactly that row |
| Export.ReportShape | server/app/services/export.js:72-76 | a report with rows has exactly one header, placed first, followed by the rows in order; with no rows it is empty |
| Export.ReportLines | server/app/services/export.js:72-76 | when neither header nor fields contain a newline, the text holds exactly one newline per row |
| Export.ExportAmbassadors | server/app/services/export.js:4-80 | the text built by the loop is the rendering of the header and one row per ambassador |
| Export.AmbassadorReportShape | server/app/services/export.js:6-76 | an empty collection gives `''`; otherwise n + 1 pieces with exactly one header, first, then row i holding ambassador i's fields |
| Export.AmbassadorReportLines | server/app/services/export.js:72-76 | with newline-free fields, the export of n ambassadors has n newlines, so n + 1 lines |
| Export.TripleeCell | server/app/services/export.js:103-105 | the triplee cell is `''` when `triplees` is falsy, element i of a parsed list when present, `''` past its end |
| Export.TriplerRowSplits | server/app/services/export.js:93-106 | a tripler's row has 12 columns; when no field holds a comma, the row splits back into its fields |
| Export.TriplerLine | server/app/services/export.js:90-106 | the 12 fields built from the serialized tripler equal the row fields stated on the nodes: names, address1, zip, status, since, confirmed_at, ambassador name, phone, three triplees |
| Export.ClaimRows | server/app/services/export.js:89-106 | an ambassador's claims give one row per relationship |
| Export.ClaimRowsRows | server/app/services/export.js:89-106 | row j holds the fields of relationship j |
| Export.AppendClaims | server/app/services/export.js:89-128 | the inner loop appends the header and then a row per relationship, or nothing when there are no claims |
| Export.ExportTriplers | server/app/services/export.js:82-132 | the text built by the nested loops is the rendering of each ambassador's block in collection order |
| Export.TriplerPiecesShape | server/app/services/export.js:85-128 | the rows are one per claims relationship, ordered by ambassador and then by relationship; the header count equals the number of ambassadors with claims |
| Export.TwoOneRowReports | server/app/services/export.js:123-127 | two one-row blocks render as header, newline, row, then the header glued to that row, newline, row |
| Export.RepeatedHeader | server/app/services/export.js:123-127 | two ambassadors with one claim each export the header twice, the second glued to the first row with no newline |
| Export.TriplerReportShape | server/app/services/export.js:123-125 | a single-header report has the same rows in the same order, one header exactly when there is a claim, and never more headers than the code emits |
| Export.NameColumnAsWritten | server/app/services/export.js:101 | the name column is never computed: `serializeName` is not among the names the serializers module exports, so the call throws for every name |
| Export.TriplerTextAsWritten | server/app/services/export.js:82-132 | the export as written returns a text exactly when no ambassador has a claim, and that text is `''` |
| Export.TriplerTextAsWrittenThrows | server/app/services/export.js:85-106 | as written, the tripler export throws exactly when some ambassador has a claim, and otherwise returns `''`, as the modelled export does |
| Onboard.InviteCode | server/app/routes/api/v1/public/onboard.js:31 | the invite code always contains the separating comma |
| Onboard.HandleOnboard | server/app/routes/api/v1/public/onboard.js:10-32 | every error has status 400 or 403; the result is an invite exactly when `formId` is truthy, both coordinates are numbers, `badinput` is falsy and both lookups find a truthy value |
| Onboard.FormIdCheckedFirst | server/app/routes/api/v1/public/onboard.js:11 | a falsy `formId` gives 400 "Missing parameter to 'formId'." whatever the rest of the body and the lookups |
| Onboard.CoordinatesCheckedSecond | server/app/routes/api/v1/public/onboard.js:12 | once `formId` passes, the coordinate 400 is returned exactly when a coordinate is NaN |
| Onboard.BadRequestExactly | server/app/routes/api/v1/public/onboard.js:11-12 | status 400 is returned exactly when `formId` is falsy or a coordinate is NaN |
| Onboard.BadInputBeforeLookups | server/app/routes/api/v1/public/onboard.js:14-17 | a truthy `badinput` in a well-formed body gives 403 with the rejection message, whatever the lookups return |
| Onboard.LookupFailures | server/app/routes/api/v1/public/onboard.js:21-28 | no form gives 403 "Invalid formId" whatever the turf lookup gives; a form without a turf gives 403 with the rejection message |
| Onboard.SuccessCode | server/app/routes/api/v1/public/onboard.js:24-31 | a success carries `String(formId) + "," + String(turfId)` of the two values found |
| Onboard.InviteCodeSplits | server/app/routes/api/v1/public/onboard.js:31 | when the form id's text holds no comma, the invite code splits at its first comma back into the two ids |

## Left out

- Floating point: `payout_per_tripler / 100` and `amount.low / 100` are not modelled as
  floating-point arithmetic. Totals are integer cents, and their printed form is the abstract `moneyText`.
- Export.AmbassadorLine: the money columns are `moneyText` of the integer-cent total (count × unit).
  The source adds `payout_per_tripler / 100` once per payout in floating point, so its text can
  differ in the last digits (three payouts at a 10-cent unit print `0.30000000000000004`). The model
  does not capture that rounding.
- `Intl.NumberFormat` currency formatting, the string form of `new Date(...)` in the export rows,
  and `JSON.parse` are abstract functions of the `Runtime` value. `Number(s)` for strings is abstract too (`numeric`).
- Numbers are integers. NaN, infinities, fractions and `-0` are not represented, and `String(n)`
  is plain decimal.
- Strings are sequences of characters. UTF-16 code units are not modelled.
- Property reads of `length` and of indices on strings and arrays by name are not modelled
  (`Prop` gives `undefined` for them). The code never reads them by name.
- The neode mapper (`model('Ambassador').all()`, `.get('claims')`, `.otherNode()`), `req.db.query`,
  `async`/`await` and Express routing are not modelled. The collection is a pre-fetched sequence of
  ambassadors, each with its claims and payouts. The onboarding lookups are the first value of each
  query's result.
- A failing database query, and a result without `data`, are not modelled. `server/app/lib/utils.js`,
  which defines `_400`/`_403`, is not part of this model. The error responses are `Failure(status, msg)`
  with the message passed in.
- Export.ExportTriplers: computes the ambassador name column with `_displayName` where the code calls
  the unbound `serializeName`. The code as written is `Export.TriplerTextAsWritten` (see Findings).
- Serializers.StampOf: a payout timestamp is represented by the text `new Date` is built from, not
  by the instant it denotes. Two texts for the same instant (`2020-01-01` and
  `2020-01-01T00:00:00.000Z`), or two unparseable texts (both Invalid Date), are different stamps
  in the model, so the model does not promise when two stamps denote the same date.
- Serializers.SerializePayout: a payout without `amount` (or with a `null` one) makes
  `payout.amount.low` throw a TypeError; the model requires `PayoutSerializable` instead, which
  also demands that a truthy `error` is well-formed JSON, where the code's `JSON.parse` would throw.
- Export.ExportAmbassadors, Export.ExportTriplers: throwing paths are preconditions, not results. These
  are a null address read at `.address1`, and a malformed JSON blob.
- `server/scripts/seed_db.js`, `server/app/server.js` and `server/scripts/lib/utils.js` are not part
  of this model: they are data seeding, process start-up and Docker command plumbing.

## Findings

| source | as written | input that shows it | evidently intended | confidence | as-written member | corrected member |
|---|---|---|---|---|---|---|
| server/app/services/export.js:101 | `serializeName` is imported from the serializers module, which exports only `serializeAmbassador`, `serializeTripler`, `serializeNeo4JTripler` and `serializePayout` (serializers.js:54-59); the binding is `undefined`, so the call throws a TypeError | any collection in which some ambassador has at least one claims relationship | the ambassador's display name, `_displayName(first_name, last_name)` | high; not executed | Export.TriplerTextAsWrittenThrows | Export.ExportTriplers |
