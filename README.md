# SiagaBencana disaster ledger, modelled in Dafny

SiagaBencana is a disaster-reporting portal for the districts (*kecamatan*) of one regency. Residents file reports (`laporan`). An administrator verifies (`diverifikasi`), rejects (`ditolak`) or leaves pending (`menunggu`) each of them. The portal keeps a ledger (`bencana`) holding, for every (kecamatan, tahun), how many floods (`banjir`), earthquakes (`gempa_bumi`) and landslides (`tanah_longsor`) were recorded. That ledger is fed in two ways:

- by the admin table, which moves a counter by one whenever a report's verification changes;
- by a CSV bulk import, which groups the uploaded rows per district and upserts them.

Three read-side views reshape it for display: the map overlay, the status counters of the dashboard, and the ledger page's list of years and its year filter.

The project is eight modules:

- `JsSemantics` (js_semantics.dfy): the JavaScript built-ins the logic leans on. These are `trim`, `parseInt` without a radix (leading blanks, a sign, `0x` hex, the longest digit prefix, `NaN` as `None`), `x || 0`, and the decimal text of an integer. It also proves the round trip `parseInt(String(i)) === i`.
- `Ledger` (ledger.dfy): the ledger's rows, keys and counter triples, and the well-formedness invariant. That invariant says no counter is negative and no row is all zeros.
- `Reconciler` (reconciler.dfy): `adjustBencanaData` as a function from ledger to ledger, with its per-case lemmas and the add-then-remove round trip.
- `ReportLifecycle` (report_lifecycle.dfy): the two tables as map fields of a class `AdminTable`, and the handlers as methods. It also defines `View`, the ledger the verified reports call for, and lemmas for how each handler moves that view. `Mirrors()` (ledger == view) is preserved by verify (from pending), reject, delete and the corrected edit.
- `CsvUpload` (csv_upload.dfy): the upload handler. This covers district normalisation, group-and-sum as an imperative loop proved against a specification function, and conservation of counts. It also covers the replace-on-conflict upsert and its idempotence, and every response of the handler.
- `DisasterMap` (disaster_map.dfy): the overlay join and the marker colour.
- `AdminStats` (admin_stats.dfy): the per-status counts.
- `BencanaManagement` (bencana_management.dfy): the years list, the default year, the year filter and the form coercion.

## Model

| member | source | states |
|---|---|---|
| Reconciler.Adjusted | components/AdminTable.js:73-82 | only the chosen counter moves, to max(0, old ± 1); the other two are unchanged |
| Reconciler.Reconciled | components/AdminTable.js:57-121 | no key other than the report's is touched; the report's key never holds an all-zero row afterwards |
| Reconciler.RemoveFromExistingRow | components/AdminTable.js:73-100 | `remove` on an existing row sets the counter to max(0, old − 1) and keeps the others; the row is deleted exactly when all three are then 0 |
| Reconciler.AddToExistingRow | components/AdminTable.js:73-90 | `add` on an existing non-negative row raises exactly the chosen counter by 1 |
| Reconciler.MissingRow | components/AdminTable.js:101-116 | with no row, `add` inserts 1 for the report's type and 0 for the others; `remove` changes nothing |
| Reconciler.ReconcilePreservesWellFormed | components/AdminTable.js:57-121 | a ledger with no negative counter and no all-zero row keeps both properties |
| Reconciler.AddThenRemove | components/AdminTable.js:57-121 | `add` then `remove` of the same (district, year, type) restores the ledger, deleting a freshly inserted row |
| ReportLifecycle.OfferedActions | components/AdminTable.js:375-391 | Verify and Reject are offered exactly for pending reports; Edit and Delete always |
| ReportLifecycle.KeyInView | components/AdminTable.js:93-100 | a key has a row in the view exactly when its counts are not all zero |
| ReportLifecycle.ViewWellFormed | components/AdminTable.js:93-100 | the view of any report table has no negative counter and no all-zero row |
| ReportLifecycle.ViewAfterVerify | components/AdminTable.js:161-169 | verifying a report that was not verified changes the view exactly as `add` changes the ledger |
| ReportLifecycle.VerifyTwiceOvercounts | components/AdminTable.js:375-391 | verifying an already verified report would put the ledger off the view, which is what the pending-only rule prevents |
| ReportLifecycle.ViewAfterReject | components/AdminTable.js:185-195 | rejecting uncounts a verified report and leaves the view alone otherwise |
| ReportLifecycle.ViewAfterDelete | components/AdminTable.js:213-226 | deleting uncounts a verified report and leaves the view alone otherwise |
| ReportLifecycle.ViewAfterReplace | components/AdminTable.js:123-141 | replacing a report moves the view by "uncount the old report, count the new one" (`ReconcileEdit`) |
| ReportLifecycle.EditAsWrittenHandledPairs | components/AdminTable.js:137-141 | for verified→rejected and rejected→verified, the as-written edit reconciliation agrees with the view |
| ReportLifecycle.EditAsWrittenMissesVerification | components/AdminTable.js:137-141 | a pending report edited to verified leaves the ledger empty although the edited table has a verified report |
| ReportLifecycle.AdminTable.AdjustBencanaData | components/AdminTable.js:57-121 | the ledger becomes `Reconciled(old ledger, key, type, action)` and the reports are unchanged |
| ReportLifecycle.AdminTable.VerifyReport | components/AdminTable.js:156-177 | sets the status to verified and always adds; an unknown id fails with nothing changed; from a pending report the ledger stays the view |
| ReportLifecycle.AdminTable.RejectReport | components/AdminTable.js:179-203 | sets the status to rejected; removes only when the report was verified; keeps the ledger the view |
| ReportLifecycle.AdminTable.DeleteReport | components/AdminTable.js:205-233 | without confirmation nothing changes; otherwise exactly that id is dropped and the report is uncounted only if it was verified; keeps the ledger the view |
| ReportLifecycle.AdminTable.EditSubmit | components/AdminTable.js:123-150 | stores the form's fields; only verified→rejected (original report) and rejected→verified (edited fields) touch the ledger |
| ReportLifecycle.AdminTable.EditSubmitReconciled | components/AdminTable.js:123-150 | the corrected edit: uncount the report as it was, count it as edited; keeps the ledger the view for every status pair |
| JsSemantics.ParseIntOrZero | pages/api/disasters/upload.js:34-36 | `parseInt(s) \|\| 0`: `NaN` becomes 0, any other result is kept |
| JsSemantics.ParseIntRoundTrip | components/Map.js:107 | `parseInt` of an integer's decimal text gives back that integer |
| CsvUpload.RowCounts | pages/api/disasters/upload.js:34-36 | each counter is its column's `parseInt(...) \|\| 0`, an absent column counting 0 |
| CsvUpload.Entries | pages/api/disasters/upload.js:29-36 | one entry per parsed row, in order: its district and counts, or nothing when skipped |
| CsvUpload.DistrictNormalization | pages/api/disasters/upload.js:30-31 | a row is skipped exactly when its `Kecamatan` text (`undefined` for an absent column) is blank; otherwise its key is `"Kecamatan "` plus that text without trailing blanks |
| CsvUpload.DistinctNamesExact | pages/api/disasters/upload.js:38-46 | each district appears once, and exactly when some non-skipped row carries it |
| CsvUpload.DistinctNamesPrefix | pages/api/disasters/upload.js:38-54 | districts come in first-occurrence order: those of any leading part of the rows come first |
| CsvUpload.SumForAbsent | pages/api/disasters/upload.js:48-51 | a district no row carries sums to zero |
| CsvUpload.GroupedShape | pages/api/disasters/upload.js:38-54 | one record per distinct district, each of the upload's year and holding its district's sums |
| CsvUpload.GroupedConservesCounts | pages/api/disasters/upload.js:29-52 | the grouped records together hold exactly the counts of all non-skipped rows |
| CsvUpload.GroupRows | pages/api/disasters/upload.js:27-54 | the `disastersMap` loop yields exactly the grouped records |
| CsvUpload.UpsertIsUnion | pages/api/disasters/upload.js:57-62 | the upsert is the old ledger overridden by the records' rows |
| CsvUpload.UpsertedDomain | pages/api/disasters/upload.js:57-62 | the rows written are exactly the records' keys |
| CsvUpload.UpsertedValues | pages/api/disasters/upload.js:57-62 | with distinct keys, each record's key holds that record's counts |
| CsvUpload.UpsertReplaces | pages/api/disasters/upload.js:57-62 | written keys get the records' counts, replacing what was there; every other row is unchanged |
| CsvUpload.UpsertIdempotent | pages/api/disasters/upload.js:57-62 | importing the same records twice gives the same ledger as once |
| CsvUpload.HandleUpload | pages/api/disasters/upload.js:4-85 | 405 for a non-POST; 400 with no write for a missing year or CSV and for any parse error; otherwise the grouped records are upserted and their number is the returned count |
| CsvUpload.ImportMayWriteZeroRow | pages/api/disasters/upload.js:29-61 | a row naming a district but no counter columns yields an all-zero record, which leaves the ledger not well-formed |
| DisasterMap.MarkerColor | components/Map.js:62-66 | red exactly above 5, orange exactly for 3..5, green for 2 or less and for `NaN` |
| DisasterMap.FindRow | components/Map.js:98 | `None` exactly when no row has the district's name; otherwise the first row that has it |
| DisasterMap.JsAdd | components/Map.js:107 | JavaScript `+` on numbers: `NaN` if either side is, the sum otherwise |
| DisasterMap.JsSumOfNumbers | components/Map.js:107 | a left-to-right sum of non-`NaN` numbers is their plain sum |
| DisasterMap.TotalImpactIsTotal | components/Map.js:107 | a row's total impact is never `NaN` and is the sum of its three counters |
| DisasterMap.CombinedData | components/Map.js:97-109 | one entry per district of the list, in the same order |
| DisasterMap.CombinedDataEntries | components/Map.js:97-109 | each entry has its district's name, the first matching row's counters (all zeros when none), and their sum as total impact |
| DisasterMap.MarkerOfCombined | components/Map.js:62-66 | a district's marker colour is the threshold class of its counters' sum |
| AdminStats.CountStatus | components/AdminStats.js:52-54 | a status count is at most the number of rows |
| AdminStats.CountIsMatching | components/AdminStats.js:51-55 | each count is the number of rows whose status is exactly that string |
| AdminStats.CountsPartition | components/AdminStats.js:51-55 | the three counts add up to the number of rows when every status is a known one |
| AdminStats.ComputeStats | components/AdminStats.js:51-60 | the store's count, or 0 when absent, and the three status counts |
| AdminStats.StatsConsistent | components/AdminStats.js:51-60 | counted from one snapshot of known statuses, the total equals the sum of the three cards |
| BencanaManagement.InsertDescending | components/BencanaManagement.js:43 | inserting a year into a strictly descending list keeps it strictly descending and adds exactly that year |
| BencanaManagement.UniqueYears | components/BencanaManagement.js:43 | the years list is strictly descending (so has no duplicates), and a year is in it exactly when some row has that `tahun` |
| BencanaManagement.DescendingUnique | components/BencanaManagement.js:43 | two strictly descending lists with the same elements are equal |
| BencanaManagement.UniqueYearsIsTheSortedSet | components/BencanaManagement.js:43 | any strictly descending list of exactly the ledger's years is the years list |
| BencanaManagement.DefaultYear | components/BencanaManagement.js:45 | the first year when there is one and it is not 0, the current year otherwise |
| BencanaManagement.DefaultYearIsNewest | components/BencanaManagement.js:43-45 | the default is the current year or the newest year of the ledger, and it is the newest year whenever some year is positive |
| BencanaManagement.FilterYear | components/BencanaManagement.js:58 | a row is shown exactly when it is a ledger row of the selected year |
| BencanaManagement.FilterYearAppend | components/BencanaManagement.js:58 | the filter distributes over concatenation, so shown rows keep their original order |
| BencanaManagement.FilterYearIdempotent | components/BencanaManagement.js:58 | filtering the shown rows again by the same year changes nothing |
| BencanaManagement.ShownRows | components/BencanaManagement.js:55-61 | a falsy selection keeps the previous list; an unreadable year shows nothing; otherwise the rows of that year |
| BencanaManagement.ShownRowsOfNumber | components/BencanaManagement.js:45-59 | selecting a non-zero year number shows exactly that year's rows, in order |
| BencanaManagement.ShownRowsOfText | components/BencanaManagement.js:56-59 | picking a year's text shows exactly that year's rows |
| BencanaManagement.FormValue | components/BencanaManagement.js:73 | `kecamatan` is kept as typed; any other field is stored as the parsed integer, with unparsable input becoming 0 |
| BencanaManagement.FormValueOfInteger | components/BencanaManagement.js:73 | an integer typed into a numeric field is stored as that integer, and an empty field as 0 |

## Left out

- The Supabase store is modelled as two in-memory maps. The calls themselves (select, update, insert, delete, upsert) are left out, as are their error results, authentication and the realtime subscriptions. A handler's write either happens whole or, for an unknown report id, not at all. The "0 rows" lookup error is an absent key.
- Non-atomicity: a handler's two writes (the report, then the ledger) run as one step. A failure between them, and concurrent admins, are not modelled.
- The page's local `reports` list is identified with the `laporan` table, because every handler refreshes it from the store; `deleteReport`'s local filter is the same removal.
- `papaparse` is outside the model. Its output (the rows as column-to-text maps and the number of parse errors) is an input of `CsvUpload.HandleUpload`.
- CsvUpload.HandleUpload: when the year text is not a number, `parseInt` gives `NaN` for every record's `tahun`. The model takes the upsert of such records as a store failure (500, no write), and an empty record list as a successful no-op. Without a store the actual outcome cannot be stated.
- CsvUpload.HandleUpload: the returned `affectedRows` is taken to equal the number of records written; the store's reply is not modelled.
- CsvUpload.ImportMayWriteZeroRow: the import can write all-zero rows, and negative ones (cells such as `-3`), which `adjustBencanaData` would never leave behind. The model states this but does not forbid it, as the code does not.
- `parseInt` assumes integer input text. Exponent notation of numbers of 1e21 and more, fractional numbers, and the 53-bit precision of JavaScript numbers are not modelled; counters and years are unbounded integers.
- JavaScript's `trim` is modelled on code points, not UTF-16 code units; there is no case folding or normalisation.
- Map.js is reduced to the join, the total and the colour. The fetches and `Promise.all`, marker rendering, coordinates and the renaming of the ledger's columns by the year API (which is not part of this model) are left out.
- AdminStats: the realtime refresh and the loading state are left out, as is the store's row count; `ComputeStats` takes that count as a parameter.
- BencanaManagement: the current date is the parameter `currentYear`. The store's `order` clauses do not affect the years list (it is sorted on its own) and are left out. The insert, update and delete handlers of that page are thin store calls and are not modelled.
- pages/api/stats/[year].js and pages/api/disasters/[year].js are not part of this model, nor are the report form, the district management page, the role checks and the pages that only render.
- Response message texts are carried as given and not interpreted.

## Findings

| source | as written | input that shows it | evidently intended | confidence | as-written member | corrected member |
|---|---|---|---|---|---|---|
| components/AdminTable.js:137-141 | the edit handler reconciles the ledger only for verified→rejected and rejected→verified | a pending report edited to verified (and also a verified report whose district, year or type is edited, or one edited back to pending) | the ledger stays the count of verified reports: uncount the report as it was, count it as edited | not executed | ReportLifecycle.EditAsWrittenMissesVerification | ReportLifecycle.AdminTable.EditSubmitReconciled |
