# Railway traffic dashboard: the logic inside the pages

The dashboard is a Next.js application over fixed sample data. Its pages
hold a small amount of real logic, and this project models that logic in
Dafny and proves properties of it:

- **Audit logs** (`Audit`): the three-way filter over the log records
  (case-insensitive search over event, details and train id; exact event and
  user filters), pagination in pages of ten with JavaScript `slice`
  semantics, the footer and the Previous/Next buttons, the CSV text of the
  export, the lowercase icon and badge classifiers, and the page state as a
  class whose methods are the input and button handlers.
- **Status badge** (`StatusBadge`): the thirteen status literals, the
  configuration table, the priority table and the criticality predicate,
  the flags a badge renders with, and the `StatusGroup` ordering, which
  sorts the caller's array in place. The in-place insertion sort is proved
  equal to a functional reference, and that reference is proved to be a
  permutation, in non-increasing priority, and stable (the guarantee of
  `Array.prototype.sort`, section 23.1.3.30 of ECMA-262, 2023 edition).
- **Systems** (`Systems`): the component registry as a class, its two
  update-by-id operations, the per-status counts built by a loop over an
  accumulator map, the `|| 0` display and the error badge, and the status
  changes the card buttons offer.
- **Simulator** (`Simulator`): the train list and form as a class, the
  guarded append with `parseInt(...) || default` input handling, removal by
  id, reset, and the run-button condition.

Shared modules: `Seqs` (an `Option` type and `Filter`, the model of
`Array.prototype.filter`, with the positions it keeps), `Text`
(`toLowerCase`, `includes`, `join` and its reading partner `split`) and
`Numeric` (the global `parseInt` of section 19.2.5 of ECMA-262 without a
radix argument, and decimal numerals to read back).

The CSV export follows section 2 of RFC 4180 only loosely, and the model
states what the code writes rather than conformance: lines are separated
by a bare `\n` (not CRLF), only `details` is quoted, and quotes inside it
are not doubled. The reading partner used for the round-trip lemmas
(`ParseRow`, `ParseCsv`) splits a row at its first six commas and strips
the outer quotes of the rest, so the round trip holds whatever `details`
contains, provided the six bare fields hold no comma and no field holds a
newline.

## Model

| member | source | states |
|---|---|---|
| Audit.FilteredLogs | app/audit/page.tsx:96-106 | a log is in the filtered list exactly when it is in the input and the search, event and user predicates all hold; a non-`all` event or user filter keeps only logs whose field equals it exactly |
| Audit.FilteredInOrder | app/audit/page.tsx:96-106 | the filtered list is an order-preserving subsequence: its k-th entry is the log at the k-th kept position, kept positions strictly increase, and a position is kept exactly when its log matches |
| Audit.ClearedQueryKeepsAll | app/audit/page.tsx:234-238 | with search `''` and both filters `all` every log is kept, in its original order |
| Audit.SearchReadsThreeFields | app/audit/page.tsx:97-100 | search depends on `event`, `details` and `trainId` only; `sectionId`, `user`, `action`, `timestamp` and `id` are never searched |
| Audit.SearchWithoutTrainId | app/audit/page.tsx:97-100 | a log without `trainId` matches a non-empty term exactly when the lowered term occurs in the lowered `event` or `details` |
| Audit.SearchIgnoresCase | app/audit/page.tsx:97-100 | lowering the term does not change which logs match |
| Audit.SearchFindsSubstring | app/audit/page.tsx:97-100 | a term occurring verbatim in `event`, `details` or `trainId` always matches |
| Audit.SearchFoldsCaseFilterDoesNot | app/audit/page.tsx:97-102 | the search folds case and the event filter does not: the term `Signal Changed` finds the event `signal changed`, the filter `Signal Changed` rejects it |
| Audit.EventFilterIsExact | app/audit/page.tsx:102 | `all` passes every log; any other event filter keeps exactly the logs whose event equals it, case included |
| Audit.UserFilterIsExact | app/audit/page.tsx:103 | `all` passes every log; any other user filter keeps exactly the logs whose user equals it, case included |
| Text.LowerKeepsContains | app/audit/page.tsx:98-100 | an occurrence of a term in a field is still an occurrence after both are lowered |
| Audit.TotalPages | app/audit/page.tsx:108 | the page count is the least `r` with `10 * r >= n`, that is `ceil(n / 10)` |
| Audit.SliceIndex | app/audit/page.tsx:110 | a `slice` argument inside the list is used as is, one past the end is clamped to the length, a negative one above minus the length counts back from the end, one at or below minus the length gives 0 |
| Audit.Slice | app/audit/page.tsx:110 | `slice` yields only elements of the list and, for in-range arguments, exactly the sub-sequence between them |
| Audit.Page | app/audit/page.tsx:109-110 | page p (p >= 1) is the sub-sequence from `(p-1)*10` to `(p-1)*10+10`, cut at the end of the list; no page has more than ten entries |
| Audit.PagesUpToIsPrefix | app/audit/page.tsx:108-110 | pages 1 to k laid end to end are the first `min(10k, n)` entries |
| Audit.PagesPartition | app/audit/page.tsx:108-110 | pages 1 to `totalPages` laid end to end are exactly the filtered list, in order |
| Audit.PageNonEmptyInRange | app/audit/page.tsx:108-110 | a page p >= 1 shows at least one entry exactly when p <= `totalPages` |
| Audit.EntryOnItsPage | app/audit/page.tsx:108-110 | entry k is shown on page `k/10 + 1`, which lies in 1..`totalPages` |
| Audit.FooterDescribesPage | app/audit/page.tsx:324-326 | on a page in range the footer's `start+1 to min(start+10, n) of n` names exactly the entries shown |
| Audit.ButtonsStayInRange | app/audit/page.tsx:328-344 | from a page in 1..`totalPages`, an enabled Previous or Next leads to a page in 1..`totalPages` |
| Audit.NextEnabledPastLastPage | app/audit/page.tsx:339-344 | on a page beyond the last with the controls shown, Next is still enabled and leads further away |
| Audit.StaleFilterHidesEntries | app/audit/page.tsx:218 | with ten `System` logs and one `Controller A` log, page 2 shows the eleventh log; selecting user `Controller A` keeps page 2, which is then empty while the filtered list is not, and the controls are hidden |
| Audit.CorrectedChangeShowsEntry | app/audit/page.tsx:108-110 | on the same eleven logs, the corrected filter change to user `Controller A` lands on page 1, which shows the log page 2 hid |
| Audit.CsvRows | app/audit/page.tsx:148-150 | one row per filtered log |
| Audit.HeaderNamesEachField | app/audit/page.tsx:147 | the header splits into seven column names, one per field of a row |
| Audit.RowIsJoin | app/audit/page.tsx:149 | a row is its six bare fields and the quoted details joined by commas, with a missing `trainId` or `sectionId` as an empty field |
| Audit.RowReadsBack | app/audit/page.tsx:149 | a row whose six bare fields hold no comma reads back as its record, details unescaped and whatever they contain |
| Audit.ExportCsv | app/audit/page.tsx:146-151 | the export begins with the header line, and is only the header when no log passes the filters |
| Audit.ExportLines | app/audit/page.tsx:146-151 | with no newline in any field the export splits into the header line followed by one row per log in order, so it has exactly `1 + n` lines |
| Audit.ExportReadsBack | app/audit/page.tsx:146-151 | under the same conditions the whole export reads back as the records of the filtered logs, in order |
| Audit.EventIconIgnoresCase | app/audit/page.tsx:112-127 | the event icon depends only on the lowered event name |
| Audit.ActionBadgeIgnoresCase | app/audit/page.tsx:129-143 | the action badge depends only on the lowered action name |
| Audit.AuditPage.constructor | app/audit/page.tsx:38-41 | the page starts with the cleared filters on page 1 |
| Audit.AuditPage.CurrentLogs | app/audit/page.tsx:108-110 | the table shows at most ten logs, each one that matches the current filters |
| Audit.AuditPage.SetSearchTerm | app/audit/page.tsx:199 | the search term is replaced; the other filters and the page number are kept |
| Audit.AuditPage.SetEventFilter | app/audit/page.tsx:203 | the event filter is replaced; the other filters and the page number are kept |
| Audit.AuditPage.SetUserFilter | app/audit/page.tsx:218 | the user filter is replaced; the other filters and the page number are kept |
| Audit.AuditPage.ClearFilters | app/audit/page.tsx:234-238 | the filters return to `''`, `all`, `all`, every log is listed again, and the page number is kept |
| Audit.AuditPage.ChangeFilters | app/audit/page.tsx:203-218 | a filter change that returns to page 1, after which the page is in range |
| Audit.AuditPage.PreviousPage | app/audit/page.tsx:328-335 | clickable only when shown and not on page 1; goes back one page, keeps the page at least 1 and keeps a page in range in range |
| Audit.AuditPage.NextPage | app/audit/page.tsx:339-344 | clickable only when shown and not on the last page; goes forward one page and keeps a page in range in range |
| StatusBadge.ParseStatus | components/ui/status-badge.tsx:18-31 | a string reads as a status only if it is that status's literal |
| StatusBadge.LiteralsAreDistinct | components/ui/status-badge.tsx:18-31 | every one of the thirteen literals reads back as its own status |
| StatusBadge.GetStatusConfig | components/ui/status-badge.tsx:90-175 | every status has a configuration with a non-empty label and description, whose priority is `critical` exactly for `blocked` and `critical`, which are exactly the statuses of numeric priority 4 |
| StatusBadge.GetStatusPriority | components/ui/status-badge.tsx:226-243 | the priority is in 0..4, at least 3 exactly for the critical statuses, and 0 exactly for `departed` and `offline` |
| StatusBadge.RenderBadge | components/ui/status-badge.tsx:178-224 | bounce iff animated and of critical priority; pulse iff `pulse` or of critical priority; clickable, with role `button` and tab index 0, exactly when `onClick` is given; the title is a non-empty tooltip when there is one and the description otherwise (an empty tooltip included); the icon spins exactly for an animated `maintenance` badge that shows its icon and pulses only when the badge pulses; the label is the configured caption |
| StatusBadge.DefaultBadgeFlags | components/ui/status-badge.tsx:181-197 | with only `status` given, a badge never bounces, has no role, and pulses exactly for the statuses of priority 4 |
| StatusBadge.CriticalEntriesSortFirst | components/ui/status-badge.tsx:245-257 | in the priority order of a status group every `isStatusCritical` entry comes before every entry that is not critical |
| StatusBadge.SortByPriority | components/ui/status-badge.tsx:255-257 | the reference order has as many entries as its input |
| StatusBadge.SortIsDescending | components/ui/status-badge.tsx:255-257 | the reference order is in non-increasing priority |
| StatusBadge.SortIsPermutation | components/ui/status-badge.tsx:255-257 | the reference order is a permutation of the input |
| StatusBadge.SortIsStable | components/ui/status-badge.tsx:255-257 | the entries of each priority keep their input order |
| StatusBadge.InsertEntry | components/ui/status-badge.tsx:255-257 | one pass of the in-place sort inserts the entry at position i into the sorted prefix before it and leaves the rest of the array alone |
| StatusBadge.SortStatusGroup | components/ui/status-badge.tsx:255-257 | sorting the caller's array in place leaves exactly the reference order |
| Numeric.TrimStart | app/simulator/page.tsx:71-72 | leading white space (section 19.2.5 of ECMA-262) is removed and nothing else |
| Numeric.LeadingDigits | app/simulator/page.tsx:71-72 | the longest prefix of digits of the radix is taken |
| Numeric.ParseIntOr | app/simulator/page.tsx:71-72 | `parseInt(s) \|\| d` is the parsed value whenever that is a non-zero number, and `d` when it is NaN or zero |
| Numeric.ParseIntSkipsBlank | app/simulator/page.tsx:71-72 | white space in front of the input changes nothing `parseInt` reads |
| Numeric.ParseIntReadsNumeral | app/simulator/page.tsx:71-72 | `parseInt` reads back the decimal numeral of any integer, after any white space and before any non-digit (after the numeral `0`, not an `x` or `X`, which would start a hex prefix) |
| Numeric.ParseIntOrOfNumeral | app/simulator/page.tsx:71-72 | `parseInt(String(n)) \|\| d` is `n` for non-zero `n` and `d` for zero |
| Systems.AutoModeToggled | app/systems/page.tsx:123-129 | `autoMode` flips exactly on the components with the id; every other field, the length and the order are unchanged |
| Systems.StatusChanged | app/systems/page.tsx:131-137 | components with the id get the new status and `Just now`; the others are unchanged, and no other field of any component changes |
| Systems.ToggleTwiceRestores | app/systems/page.tsx:123-129 | toggling the same id twice restores the list |
| Systems.LastStatusChangeWins | app/systems/page.tsx:131-137 | two status changes of the same id amount to the second |
| Systems.UnknownIdChangesNothing | app/systems/page.tsx:123-137 | an id no component has leaves the list unchanged under both updates |
| Systems.Count | app/systems/page.tsx:139-142 | the number of components with a status never exceeds the number of components |
| Systems.CountPositive | app/systems/page.tsx:139-142 | a status has a positive count exactly when some component has it |
| Systems.CountsSumToLength | app/systems/page.tsx:139-142 | the four counts add up to the number of components |
| Systems.StatusCounts | app/systems/page.tsx:139-208 | the accumulator has an entry exactly for the statuses present, each equal to the number of components with it; the `\|\| 0` display gives every count; the error badge shows exactly when some component is in error |
| Systems.ActionFor | app/systems/page.tsx:259-321 | a card shows a button exactly when its component is not offline, and the button always sets a status different from the current one |
| Systems.Target | app/systems/page.tsx:259-321 | no button sets a component to error or offline |
| Systems.OfferedTransitions | app/systems/page.tsx:259-321 | the buttons offer exactly maintenance to active, active to maintenance and error to active; `offline` has none |
| Systems.PressAddsNoErrorOrOffline | app/systems/page.tsx:259-321 | confirming a card's button never increases the number of components in error or offline |
| Systems.SystemsPage.constructor | app/systems/page.tsx:91 | the page starts with the given component list |
| Systems.SystemsPage.ToggleAutoMode | app/systems/page.tsx:123-129 | the component list becomes the toggled list |
| Systems.SystemsPage.ChangeComponentStatus | app/systems/page.tsx:131-137 | the component list becomes the restamped list |
| Systems.SystemsPage.PressAction | app/systems/page.tsx:259-321 | confirming the button of card i applies its target status to that card's id, with no more components in error or offline than before |
| Simulator.AddNeedsNumberAndName | app/simulator/page.tsx:64-86 | a train is added only when number and name are both non-empty, so every added train has both; the form an add restores fails the guard |
| Simulator.RunEnabledConditions | app/simulator/page.tsx:288 | Run is enabled exactly with a section, at least one train and no run in progress, and adding a train never disables it |
| Simulator.TrainFromForm | app/simulator/page.tsx:67-75 | the new train carries the given id, number, name, type and start time; passengers and speed are the parsed inputs whenever those are non-zero numbers, and 500 and 80 when they are NaN or 0, so never 0 |
| Simulator.ZeroInputGivesDefault | app/simulator/page.tsx:71-72 | the inputs `0` give 500 passengers and speed 80 |
| Simulator.NumeralInputIsRead | app/simulator/page.tsx:71-72 | a non-zero count typed as its numeral is taken as it is |
| Simulator.NonNumericInputGivesDefault | app/simulator/page.tsx:71 | an input starting with no digit, sign or white space is NaN and gives 500 passengers |
| Simulator.WithoutTrain | app/simulator/page.tsx:88-90 | every train with the id is removed and every other train kept |
| Simulator.RemoveKeepsOrder | app/simulator/page.tsx:88-90 | the remaining trains keep their relative order |
| Simulator.RemoveUnknownIdKeepsAll | app/simulator/page.tsx:88-90 | removing an id no train has changes nothing |
| Simulator.RemoveUndoesAdd | app/simulator/page.tsx:64-90 | removing a train just added under a fresh id restores the list |
| Simulator.SimulatorPage.constructor | app/simulator/page.tsx:51-62 | no section, no trains, not running, no results, the empty form; Run is disabled |
| Simulator.SimulatorPage.SelectSection | app/simulator/page.tsx:149 | only the selected section changes |
| Simulator.SimulatorPage.EditForm | app/simulator/page.tsx:182-233 | only the form changes |
| Simulator.SimulatorPage.AddTrain | app/simulator/page.tsx:64-86 | with an empty number or name nothing changes; otherwise exactly one train is appended, earlier trains are unchanged, and the form is reset to empty fields, `express` and `14:00` |
| Simulator.SimulatorPage.RemoveTrain | app/simulator/page.tsx:88-90 | the train list becomes the list without the id; nothing else changes |
| Simulator.SimulatorPage.ResetSimulation | app/simulator/page.tsx:116-120 | no trains, no results, no section; Run is then disabled |
| Simulator.SimulatorPage.StartRun | app/simulator/page.tsx:92-93 | an enabled run sets the running flag, which disables Run |
| Simulator.SimulatorPage.FinishRun | app/simulator/page.tsx:111-112 | results are present, the flag is cleared, and Run is enabled again exactly when a section and a train are there |

## Left out

- Simulator.SimulatorPage.StartRun: the values `runSimulation` computes come from `Math.random` and floating point after a `setTimeout`; only the running flag and whether results exist are modelled.
- Simulator.SimulatorPage.AddTrain: the id `Date.now().toString()` is a clock reading and is a parameter.
- The export's download (Blob, object URL, hidden anchor) is I/O; only the CSV text is modelled.
- `toLocaleTimeString` in the audit table depends on the locale and is not modelled.
- Text.Lower: `toLowerCase` is modelled on the ASCII letters only; other letters are left as they are.
- Numeric.ParseIntOr: `parseInt` yields a floating-point Number; values beyond 2^53 lose precision there but are exact here, and `-0` is merged with `0` since only its falsiness is used.
- StatusBadge.GetStatusPriority: the `?? 1` fallback cannot be reached, as the table covers all thirteen statuses.
- StatusBadge.SortByPriority: its own contract states only the length; order, permutation and stability are the lemmas `SortIsDescending`, `SortIsPermutation` and `SortIsStable`.
- StatusBadge.SortStatusGroup: the engine's sort algorithm is not specified by ECMA-262; the model uses an insertion sort and proves it equal to the stable descending order the standard requires.
- Audit.CsvRows: its own contract states only the length; the row format is stated by `RowIsJoin`, `RowReadsBack` and `ExportLines`.
- Class strings built with `cva`/`cn`, icon components and the rest of the markup are not modelled; only the flags and choices fed into them are.
- Systems.SystemsPage.ChangeComponentStatus: the source accepts any string through `as any`; the model accepts the four statuses, which covers every call the buttons make.
- The alert dialogs' Cancel changes nothing and is not modelled; `PressAction` is the Confirm of Mark Active and Schedule Maintenance, and the direct click of Reset, which has no dialog.
- Simulator.TrainFromForm: the form's `type` is declared `'express' as const` but the select stores any of its three values, so it is modelled as the three-valued `TrainType`.
- The sample data (`mockAuditLogs` and the page's extra logs, the component list, the sections) is not modelled. The audit logs and the component list are constructor parameters; `SimulatorPage`'s constructor takes none, and `SelectSection` accepts any string in place of the `mockSections` options.
- `getTypeIcon`, `getStatusIcon` and the View Logs button (which has no handler) on the systems page are rendering only.
- The map, analytics, home, section and layout pages and the navigation components hold no logic this model covers.

## Findings

| source | as written | input that shows it | evidently intended | confidence | as-written member | corrected member |
|---|---|---|---|---|---|---|
| app/audit/page.tsx:203-218 | changing the search term or a filter keeps `currentPage`, so it can lie past the last page of the new filtered list | eleven logs, ten by `System` then one by `Controller A`; on page 2 select user `Controller A`: page 2 of a one-entry list is empty and the pagination controls are hidden, so the matching log cannot be reached | a filter change returns to page 1 | medium, not executed; latent in the page as shipped, whose eight sample logs fit on one page, and reachable once the list passes ten entries | Audit.StaleFilterHidesEntries | Audit.AuditPage.ChangeFilters |
