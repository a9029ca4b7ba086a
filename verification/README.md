# PT visit tracker: the record-keeping core in Dafny

The PT visit tracker is a single React component (`app.js`). It keeps a list
of tablet-dispensing visits. Each visit has a PT registration number, a visit
date, the scheduled next visit, the tablet days given, and a follow-up flag.
From that list it derives every view it shows:

- the unique-patient counters, per day, per month and overall;
- the per-patient tablet rollup;
- the month calendar's per-day counts;
- the "pending today" badge and the lookup statistics;
- the registration-number autocomplete.

Apart from reloading from the remote store, which is left out, the list
changes only through four operations: the submit handler, toggling a
follow-up, deleting a visit and clearing everything.

This project models that core as pure functions over immutable values and
proves what each derived view means.

| module (file) | models |
|---|---|
| `Text` (`text.dfy`) | JavaScript `trim`, `toUpperCase`, `includes`, `slice(-4)`; the canonical number `trim().toUpperCase()` |
| `RegNumber` (`regnumber.dfy`) | `formatRegNumber` and the submit pattern `^\d{4}\/[A-Z]{3}\/\d{4}$` |
| `Records` (`records.dfy`) | the visit record, `calculateTabletDays`, and the reference sets (patients seen, pending on a day or in a month) |
| `Counts` (`counts.dfy`) | `uniquePatientCounts`, its two lookups, the per-day part of `getMonthDatesDetailed`, `getPendingTodayCount`, `lookupStats` |
| `Rollups` (`rollups.dfy`) | `patientTabletData` (the fold, the key order, the per-patient sort) and `getPatientTotalTablets` |
| `Suggest` (`suggest.dfy`) | `getRegNumberSuggestions` |
| `Store` (`store.dfy`) | the local branch of `handleSubmit`, `toggleCompleted`, `deleteVisit`, `clearAllData`, with the `localStorage` copy as a value |

Some JavaScript details are modelled as follows:

- A date is a whole day number. `monthOf: int -> int` is a parameter that
  stands for `getMonth()`.
- The clock (`Date.now()`, `new Date()`) is passed in as `id` and `now`.
- A JavaScript object used as a dictionary becomes a Dafny `map`. Where the
  key order matters (`Object.keys(patientTabletData)`), the keys are kept as
  an explicit insertion-ordered sequence next to the map.

## Model

| member | source | states |
|---|---|---|
| Records.CalculateTabletDays | app.js:123-129 | the tablet days are positive exactly when the next visit is later, and then they are the day difference, so visit date plus tablet days is the next visit |
| Text.TrimSpec | app.js:41 | `trim` keeps the stretch between leading and trailing white space: the cut-off parts are white space, the ends of the result are not, and a string without white space is unchanged |
| Text.TrimUpperCommute | app.js:513 | the search's `toUpperCase().trim()` equals the key's `trim().toUpperCase()` |
| Text.CanonIdempotent | app.js:41 | canonicalising a registration number twice is the same as canonicalising it once |
| Text.ContainsIff | app.js:521 | the scanning `includes` holds exactly when the search occurs at some position |
| RegNumber.FormatShape | app.js:132-154 | the formatted number is at most 13 characters of alphanumerics and `/`; a `/` sits exactly at positions 4 and 8, present once more than 4 or 7 alphanumerics were typed; the code letters are never lower case |
| RegNumber.FormatKeepsFirstEleven | app.js:132-154 | cleaning the formatted number again gives back the first eleven typed alphanumerics, with the three code letters upper-cased |
| RegNumber.FormatIdempotent | app.js:132-154 | formatting an already formatted number changes nothing |
| RegNumber.FormatMatchesPatternIff | app.js:132-154 | the formatter's output passes the submit pattern exactly when the typed alphanumerics begin with four digits, three letters of either case and four digits |
| RegNumber.PatternIsCanonical | app.js:309-310 | a number that passes the submit pattern has no white space and is its own canonical form, so `regNumber.trim()` stores it unchanged |
| Counts.UniquePatientCounts | app.js:30-72 | `total` is the number of distinct patients in the whole list; `byDate` and `byMonth` have a key for every day and month with some next visit, completed or not; each key holds the number of distinct patients still pending then |
| Counts.TallyMeaning | app.js:37-61 | the sets built by the scan are the reference sets: all patients, and the pending patients of each day and month that has a next visit |
| Counts.BucketsAtMostTotal | app.js:30-72 | no day or month bucket exceeds the overall number of patients |
| Counts.DayWithinMonth | app.js:30-72 | a day's pending count is at most the pending count of its month |
| Counts.UniquePatientsForDateCorrect | app.js:165-168 | the day lookup, including its fallback to 0, is the number of distinct patients pending that day, for every day |
| Counts.UniquePatientsForMonthCorrect | app.js:171-173 | the month lookup, including its fallback, is the number of distinct patients pending that month |
| Counts.MonthDatesDetailed | app.js:442-468 | one entry per day of the month, in day order; entry `i` is the entry for day `i + 1` |
| Counts.MonthDayCount | app.js:446-455 | entry `i` of the month view is day `i + 1` at date `firstDay + i`; it lists exactly the visits pending that day, in list order, and counts the distinct patients among them |
| Counts.MonthViewAgreesWithCounts | app.js:446-463 | every day's count in the month view equals the memoised day bucket |
| Counts.PendingTodayCount | app.js:549-568 | the badge is the number of distinct patients with a pending follow-up today |
| Counts.PendingTodayAgreesWithCounts | app.js:560-568 | the badge equals the memoised bucket for today |
| Counts.Lookup | app.js:498-507 | the lookup statistics are the list length and the number of distinct patients |
| Counts.LookupAgreesWithTotal | app.js:498-507 | the lookup's patient count equals the dashboard total and never exceeds the number of records |
| Rollups.SortByVisitDate | app.js:110 | the per-patient sort returns a rearrangement (same multiset) ordered by visit date |
| Rollups.SortIsStableArrangement | app.js:110 | the sort is stable: visits with the same visit date keep their recorded order |
| Rollups.AccumulateTabulates | app.js:78-106 | after the `forEach`, each entry summarises exactly its patient's visits, and the keys are the patients seen, in order of first visit |
| Rollups.EntriesMeaning | app.js:75-114 | each entry holds the number as first recorded, the sum of the patient's tablet days, the earliest and latest visit dates and the latest next visit (each attained by some visit), and the patient's visits sorted stably by visit date |
| Rollups.PatientTabletDataKeys | app.js:75-114 | the rollup has one key per distinct canonical number, no key twice, in order of first appearance in the list |
| Rollups.PatientTotalTabletsMeaning | app.js:117-120 | the running total for a number, in any case or spacing, is the sum of the tablet days of that patient's visits, and 0 for an unknown patient |
| Rollups.ListedVisitsCoverAll | app.js:75-114 | every key has an entry, and the lengths of the patients' visit lists sum to the number of visits |
| Suggest.Matching | app.js:517-521 | the filtered keys are exactly the keys that match, kept in key order |
| Suggest.Suggestions | app.js:510-523 | an empty search gives nothing; otherwise the result is the first `min(matches, 10)` matching keys, in key order |
| Suggest.SuggestionsComplete | app.js:517-522 | with fewer than ten suggestions, every matching key is suggested |
| Suggest.BlankSearchListsFirstKeys | app.js:511-513 | a search of white space only is not refused; it suggests the first ten keys |
| Suggest.CanonicalKeyMatches | app.js:518-521 | for a canonical key, the last-four test adds nothing: the key matches exactly when it contains the search |
| Suggest.RollupKeysCanonical | app.js:79 | every rollup key is a canonical number |
| Suggest.WholeNumberFound | app.js:510-523 | typing a patient's whole number, in any case and with any surrounding white space, suggests that patient whenever fewer than ten keys match |
| Store.Submit | app.js:300-361 | rejected exactly when a field is missing, the pattern fails, or the next visit is not after the visit, with the checks in that order; otherwise a pending record with the given id, dates, timestamp and positive tablet days goes in front of the unchanged list, and the saved copy equals the new list |
| Store.SubmitKeepsUniqueIds | app.js:331-352 | a record added with an id no record carries keeps all ids distinct |
| Store.SubmitReportsNewTotal | app.js:328-357 | the total in the confirmation message is the patient's total once the new record is in the list |
| Store.Find | app.js:390 | none exactly when no record has the id; otherwise the first record with that id, the only one when ids are unique |
| Store.ToggleCompleted | app.js:389-406 | an unknown id changes nothing; otherwise the length, all ids and every other record are kept; the record with the id gets the flag flipped and `completedAt` set exactly when it becomes done; the list is saved |
| Store.ToggleTwice | app.js:389-406 | toggling twice restores everything but `completedAt`: a pending record comes back exactly, a done one gets the second timestamp |
| Store.ToggleKeepsWellFormed | app.js:392-396 | after a toggle, `completedAt` is still set exactly on the done records, for any list |
| Store.DeleteVisit | app.js:364-376 | the list keeps exactly the records without the id; the saved copy is removed exactly when the list becomes empty and equals the list otherwise |
| Store.DeleteKeepsUniqueIds | app.js:368 | filtering out records keeps all ids distinct |
| Store.WithoutAppend | app.js:368 | the filter treats each part of the list separately, so the kept records stay in order |
| Store.DeleteIdempotent | app.js:364-376 | deleting the same id twice is the same as deleting it once |
| Store.DeletedPatients | app.js:364-376 | after a delete, the patients left are those with some other record |
| Store.ClearAllData | app.js:378-387 | the list is empty and the saved copy is removed |
| Store.ClearedHasNoPatients | app.js:378-387 | after clearing, the day and month counters, the overall total, the lookup statistics and the pending-today badge are zero, and the rollup is empty |

## Left out

- The remote store. `callGoogleScript`, `loadDataFromGoogle` and the remote
  success branch of `handleSubmit` are network I/O. After a remote success
  the list is reloaded from the endpoint, so only the local branch is
  modelled. The awaited remote calls in `deleteVisit`, `toggleCompleted` and
  `clearAllData` do not change the local result and are omitted.
- `localStorage` is a value, `Cache`. `JSON.stringify` and its round trip
  through `Date` strings are not modelled.
- The `confirm` prompts of `deleteVisit` and `clearAllData` are not modelled:
  the model starts from the confirmed case. A declined prompt changes
  nothing.
- `alert` messages are not modelled. `Submit` returns the values the message
  shows.
- JavaScript `Date` is replaced by whole day numbers:
  - time of day is not modelled;
  - time zones and daylight saving are not modelled;
  - `Math.ceil` of a fractional day difference is not modelled;
  - `toDateString` keys are not modelled;
  - invalid dates, where comparisons are false and sums are `NaN`, are not
    modelled.
- The calendar is a parameter:
  - `monthOf` stands for `getMonth()`;
  - the month view takes its first day and length as parameters;
  - the `year` from the clock is not modelled.
- Text: `toUpperCase` maps only ASCII letters. Unicode case mapping (for
  example `ß` to `SS`) is not modelled. A Dafny `string` is a sequence of
  Unicode scalar values, while JavaScript strings are UTF-16 code units, so
  `length` and `slice(-4)` (`Text.Last4`) differ from the source for keys
  holding characters outside the Basic Multilingual Plane.
- Rollups.PatientTotalTablets: the `|| 0` fallback also replaces a `NaN`
  total. Totals here are always integers, so that case does not arise.
- Object key order: `Object.keys` lists integer-like keys first. Canonical
  keys are modelled as plain strings in insertion order, so a registration
  number that looks like an array index is the one case where the order
  would differ.
- In the month view, `getHolidayForDate`, the weekday name, `isToday`,
  `isSunday`, and the rest of the presentation layer (modals, tabs, charts,
  settings) are not modelled.
- Holiday data (`data.js`) is not part of this model.
- Rollups.SortByVisitDate: the result is defined as a stable insertion sort.
  ECMAScript requires `Array.prototype.sort` to be stable, so any conforming
  engine gives the same order.
- Store.ToggleCompleted: `toggleCompleted` replaces every record that
  carries the id with the toggled copy of the first one. The contract states
  the flag and `completedAt` of those records only when ids are unique, when
  this is just that record; `Store.SubmitKeepsUniqueIds` and
  `Store.DeleteKeepsUniqueIds` show the other updates keep ids unique, and
  `Store.ToggleKeepsUniqueIds` does the same for toggling.

## Behaviour worth knowing

- A search of only white space is not empty, so `getRegNumberSuggestions`
  does not return `[]` for it. It trims to the empty string, which every key
  contains, so the first ten keys are suggested. See
  `Suggest.BlankSearchListsFirstKeys`.
- Toggling a done record twice does not restore its `completedAt`: the
  second toggle stamps the current time. See `Store.ToggleTwice`.
