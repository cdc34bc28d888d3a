# Vertex Grounds admin dashboard: a Dafny model

This project models the in-memory lead handling of the Vertex Grounds admin
dashboard (`app/admin/page.js`). Contact-form leads are loaded from a hosted
table into a list of submissions. The admin searches, filters and sorts them,
selects some, changes their status, deletes them and exports them as CSV.

The project has these modules:

- `Leads` (`leads.dfy`): the `Submission` record, with `submitted_at`
  abstracted to an integer instant, and the unique-id property that the
  table's primary key guarantees.
- `Text` and `Sequences` (`text.dfy`, `sequences.dfy`): the JavaScript
  built-ins the handlers use. These are `toLowerCase` on ASCII letters,
  `String.prototype.includes`, `Array.prototype.join` and
  `Array.prototype.filter`. The facts proved about them include membership
  with multiplicity, order preservation and composition of filters.
- `Filtering` (`filtering.dfy`): what `applyFilters` computes. It runs the
  case-folded search over name, email, message and service, then the
  service and status filters, then a stable sort by date. That sort is
  newest-first when the order is `desc` and oldest-first for any other value.
- `LocalUpdates` (`local_updates.dfy`): the expressions that rewrite local
  state after the store accepts a change. These are the status rewrites, the
  removals, `toggleSelect`, `toggleSelectAll` and `toggleSetting`.
- `Presentation` (`presentation.dfy`): `getStatusColor` and the counts
  returned by `getChartData`.
- `Csv` (`csv.dfy`): the text built by `exportToCSV`, and a reader for
  comma-separated values with double-quoted fields, written after the
  convention of RFC 4180. The export is proved to read back as the header
  plus one record per submission, in list order, whenever the cells written
  without escaping contain no double quote. Those cells are the date text,
  name, email, service and status. Only the message has its quotes doubled,
  so `UnescapedQuoteBreaksRow` shows that a name made of one double quote
  does not read back.
- `Dashboard` (`dashboard.dfy`): the component as a class, `AdminDashboard`.
  Its fields are the component's state hooks. Its methods are the event
  handlers. Each call to the store becomes a `storeOk` flag. Each
  `confirm` dialog becomes a `confirmed` flag. A refused confirmation
  returns silently. A store error, or a bulk action on an empty selection,
  only raises an alert. In all three cases the state is unchanged.
  `Valid()` says that ids are unique in both lists and that the selection
  holds no id twice, and every handler preserves it.

Behaviour of the source that the contracts make explicit:

- `toggleSelectAll` compares only the lengths of the selection and the
  visible list. A selection of ids that are not visible, but of the same
  length, is cleared rather than replaced (`SelectAllClearsForeignSelection`).
- `toggleSetting` on a key that is not among the settings adds it switched
  on, because `!undefined` is `true`.
- `handleLogin` with a wrong password leaves `isAuthenticated` as it was and
  clears the password field.

## Model

| member | source | states |
|---|---|---|
| `Text.Lower` | app/admin/page.js:82-87 | lower-casing keeps the length, maps each upper-case letter A-Z to its lower-case partner, and keeps every other character |
| `Text.Join` | app/admin/page.js:238-240 | the join of one or more parts is never shorter than its first part; what it computes for any number of parts is stated by `Text.JoinAppend` |
| `Text.JoinAppend` | app/admin/page.js:238-240 | the join of two non-empty lists, one after the other, is the join of the first, the separator and the join of the second |
| `Text.JoinEnds` | app/admin/page.js:238-240 | a join of non-empty parts starts with the first part's first character and ends with the last part's last character |
| `Text.JoinSix` | app/admin/page.js:239 | a join of six parts is the six parts with the separator between each neighbouring pair |
| `Text.LowerIdempotent` | app/admin/page.js:82-87 | lower-casing an already lower-cased text changes nothing |
| `Text.Contains` | app/admin/page.js:84-87 | `includes` finds the empty needle in every text, and never finds a needle longer than the text |
| `Text.ContainsIffOccurs` | app/admin/page.js:84-87 | `includes` holds exactly when the needle occurs at some index of the text |
| `Sequences.Filter` | app/admin/page.js:83-97 | a filter keeps each value that passes its test exactly as often as the input holds it, and drops every other value |
| `Sequences.FilterIsSubsequence` | app/admin/page.js:143 | a filter keeps the relative order of what it keeps |
| `Sequences.FilterFilter` | app/admin/page.js:83-97 | two successive filters equal one filter by the conjunction of their tests |
| `Filtering.MatchesQuery` | app/admin/page.js:83-88 | the four-field search test: an empty query matches every record, and a query longer than each of the four fields matches none |
| `Filtering.SearchStep` | app/admin/page.js:81-89 | an empty query skips the search step; otherwise it keeps the records whose fields contain the lower-cased query |
| `Filtering.ServiceStep` | app/admin/page.js:91-93 | the value `all` skips the service step; otherwise only records of that service remain |
| `Filtering.StatusStep` | app/admin/page.js:95-97 | the value `all` skips the status step; otherwise only records of that status remain |
| `Filtering.DateComparator` | app/admin/page.js:99-103 | the comparator is zero exactly for equal timestamps; for `desc` it is negative exactly when the first record is newer, for any other order exactly when it is older |
| `Filtering.InOrder` | app/admin/page.js:99-103 | a record may stand before another exactly when the comparator, under any sort order selecting that direction, does not put the other first |
| `Filtering.Insert` | app/admin/page.js:99-103 | inserting into a date-sorted list keeps it sorted and adds exactly the one record |
| `Filtering.SortByDate` | app/admin/page.js:99-103 | the sort's output is ordered by `submittedAt` (non-increasing for `desc`, non-decreasing otherwise) and is a permutation of its input |
| `Filtering.SortByDateStable` | app/admin/page.js:99-103 | records with equal timestamps keep their relative order |
| `Filtering.Visible` | app/admin/page.js:78-105 | the shown list holds exactly the loaded records that pass all filters, each as often as loaded, sorted in the chosen direction |
| `Filtering.VisibleUniqueIds` | app/admin/page.js:79-105 | when the loaded records have unique ids, so do the shown records |
| `Filtering.VisibleSound` | app/admin/page.js:91-97 | every shown record is loaded, has the chosen service unless it is `all`, and has the chosen status unless it is `all` |
| `Filtering.VisibleUnfilteredIsPermutation` | app/admin/page.js:79-103 | with no query and both filters `all`, the shown list is a permutation of the loaded list |
| `Filtering.SearchSemantics` | app/admin/page.js:81-89 | an empty query keeps every record; otherwise a record is kept exactly when the lower-cased query occurs in its lower-cased name, email, message or service |
| `Filtering.SearchIgnoresQueryCase` | app/admin/page.js:82 | a query and its lower-cased form select the same records |
| `LocalUpdates.MarkStatus` | app/admin/page.js:119-121 | the list keeps its length; records whose id is listed get the new status; every other field and every other record is unchanged |
| `LocalUpdates.MarkStatusKeepsIds` | app/admin/page.js:194-196 | a status rewrite keeps every id in its place |
| `LocalUpdates.MarkStatusIdempotent` | app/admin/page.js:194-196 | applying the same status rewrite twice equals applying it once |
| `LocalUpdates.MarkStatusNoIds` | app/admin/page.js:181-184 | with no selected ids the rewrite leaves the list unchanged |
| `LocalUpdates.RemoveIds` | app/admin/page.js:143 | a record remains exactly when it was loaded and its id is not among those removed |
| `LocalUpdates.RemoveIdsContents` | app/admin/page.js:170 | a removal drops exactly the records with a listed id, keeps every other record as often as before, and keeps their relative order |
| `LocalUpdates.RemoveNoIds` | app/admin/page.js:154-157 | removing no ids leaves the list unchanged |
| `LocalUpdates.Without` | app/admin/page.js:145 | an id stays selected exactly when it was selected and is not the removed id |
| `LocalUpdates.ToggledSelection` | app/admin/page.js:205-211 | an absent id is appended at the end; a present id is removed everywhere it occurs; no other id's membership changes |
| `LocalUpdates.FilterShorter` | app/admin/page.js:207 | removing an id that is present makes the selection strictly shorter |
| `LocalUpdates.ToggleAbsentTwice` | app/admin/page.js:205-211 | toggling an absent id twice gives back exactly the original selection |
| `LocalUpdates.ToggleKeepsNoDuplicates` | app/admin/page.js:205-211 | toggling keeps a duplicate-free selection duplicate-free |
| `LocalUpdates.SelectAllToggled` | app/admin/page.js:213-219 | a selection as long as the visible list becomes empty; otherwise it becomes the visible ids in list order |
| `LocalUpdates.SelectAllTwiceClears` | app/admin/page.js:213-219 | from a selection of another length, toggling all twice leaves nothing selected |
| `Leads.Ids` | app/admin/page.js:217 | the id list has one entry per record, the id of the record at the same position |
| `LocalUpdates.SelectAllClearsForeignSelection` | app/admin/page.js:213-216 | for every non-empty selection as long as the visible list, even one that holds no visible id, select-all clears it instead of selecting the visible ids, because only the lengths are compared |
| `LocalUpdates.ToggledSetting` | app/admin/page.js:65-69 | the toggled key is negated, or added as `true` when absent; every other setting is unchanged |
| `LocalUpdates.ToggleSettingTwice` | app/admin/page.js:65-69 | toggling a known setting twice restores the settings |
| `Presentation.StatusColor` | app/admin/page.js:279-290 | the neutral style is returned exactly for statuses other than pending, contacted and completed |
| `Presentation.StatusColorsDistinct` | app/admin/page.js:280-286 | distinct known statuses get distinct styles |
| `Presentation.Count` | app/admin/page.js:294-302 | a service or status count is at most the number of records, and zero exactly when no record has that service or status |
| `Presentation.GetChartData` | app/admin/page.js:292-306 | neither the service bars nor the status bars together count more records than are loaded |
| `Presentation.ServiceSlack` | app/admin/page.js:293-297 | every record is counted once: in one of the three service bars or among the records with another service |
| `Presentation.StatusSlack` | app/admin/page.js:299-303 | every record is counted once: in one of the three status bars or among the records with another status |
| `Presentation.ServiceTotals` | app/admin/page.js:293-297 | the three service counts sum to the list length exactly when every record has one of the three services |
| `Presentation.StatusTotals` | app/admin/page.js:299-303 | the three status counts sum to the list length exactly when every record has a known status |
| `Presentation.ChartDataIgnoresOrder` | app/admin/page.js:292-306 | the chart counts depend only on which records are loaded, not on their order |
| `Csv.EscapeQuotes` | app/admin/page.js:233 | escaping leaves a quote-free text unchanged and never shortens it |
| `Csv.RowCells` | app/admin/page.js:228-235 | a row has one cell per header column; every cell but the message is the submission's own value, and a message without double quotes is written as it is |
| `Csv.QuoteAll` | app/admin/page.js:239 | every cell is wrapped in double quotes, and no cell is added or dropped |
| `Csv.Row` | app/admin/page.js:239 | a data line opens and closes with a double quote; its full text, every cell quoted, is stated by `Csv.RowText` |
| `Csv.RowText` | app/admin/page.js:228-239 | a data line written out: the quoted date text, name, email, service, escaped message and status, separated by commas |
| `Csv.Rows` | app/admin/page.js:228-239 | there is one data line per submission, the line of the submission at the same position |
| `Csv.ParseQuotedEscaped` | app/admin/page.js:233-239 | an escaped value between quotes reads back as the value |
| `Csv.ExportToCsv` | app/admin/page.js:221-225 | an empty list gives no output; a non-empty list gives text |
| `Csv.HeaderRoundTrip` | app/admin/page.js:227-238 | the header line reads back as the six header cells |
| `Csv.RowRoundTrip` | app/admin/page.js:228-239 | a submission's line reads back as date text, name, email, service, message and status, provided the unescaped cells hold no quote |
| `Csv.ExportRoundTrip` | app/admin/page.js:221-240 | the export reads back as the header followed by one record per submission, in list order |
| `Csv.UnescapedQuoteBreaksRow` | app/admin/page.js:230 | a name made of one double quote, written unescaped, does not read back |
| `Dashboard.AdminDashboard.constructor` | app/admin/page.js:8-29 | the initial state: logged out, empty lists and selection, default settings, filters `all`, order `desc`, empty query |
| `Dashboard.AdminDashboard.LoadSubmissions` | app/admin/page.js:45-63 | on success both lists become the loaded data, or empty when there is none; on an error nothing changes |
| `Dashboard.AdminDashboard.HandleLogin` | app/admin/page.js:251-260 | the password `admin123` logs in; a wrong password changes nothing else; the field is cleared either way |
| `Dashboard.AdminDashboard.HandleLogout` | app/admin/page.js:262-265 | logging out clears authentication and the password |
| `Dashboard.AdminDashboard.ToggleSetting` | app/admin/page.js:65-72 | one setting flips and the others keep their values |
| `Dashboard.AdminDashboard.ApplyFilters` | app/admin/page.js:78-106 | the three filter steps and the sort leave exactly the loaded records that pass the filters, sorted by date in the chosen direction |
| `Dashboard.AdminDashboard.UpdateStatus` | app/admin/page.js:109-127 | on success the records with that id take the new status; on an error nothing changes |
| `Dashboard.AdminDashboard.DeleteSubmission` | app/admin/page.js:130-150 | when confirmed and the store succeeds, the records with that id and that id in the selection are removed; otherwise nothing changes |
| `Dashboard.AdminDashboard.BulkDelete` | app/admin/page.js:153-177 | with a non-empty confirmed selection and success, the selected records are removed and the selection is cleared; otherwise nothing changes |
| `Dashboard.AdminDashboard.BulkUpdateStatus` | app/admin/page.js:180-203 | with a non-empty selection and success, the selected records take the new status and the selection is cleared; otherwise nothing changes |
| `Dashboard.AdminDashboard.ToggleSelect` | app/admin/page.js:205-211 | the selection becomes the toggled selection and stays duplicate-free |
| `Dashboard.AdminDashboard.ToggleSelectAll` | app/admin/page.js:213-219 | the selection is cleared or becomes the visible ids, judged against the visible list |
| `Dashboard.AdminDashboard.ExportToCsv` | app/admin/page.js:221-240 | the offered text is the export of the loaded list, and there is none exactly when the list is empty |

## Left out

- Calls to the hosted store (app/admin/page.js:45-63, 111-114, 136-139, 163-166, 187-190) are network I/O through a foreign library. Each is a `storeOk` flag, and `LoadSubmissions` takes the returned rows as a parameter.
- `alert`, `confirm` and `console.error` are browser dialogs and logging. A confirmation is a `confirmed` flag, and an alert leaves the state unchanged.
- The React effects that load data after login and re-run `applyFilters` whenever its inputs change are not modelled. `ApplyFilters` is a method that a caller runs, and `filteredSubmissions` keeps its old value until then.
- The handlers at app/admin/page.js:109-203 are asynchronous. After awaiting the store they build the new state from the `submissions` and `selectedIds` captured when they started (lines 119, 143-145, 170, 194-195). When two handlers overlap, the later `setSubmissions` overwrites the earlier one. For example, a status change started before a delete returns maps over the old list and brings the deleted record back. The model runs each handler as one atomic step, so it does not capture such lost updates.
- `localStorage` persistence of the settings (lines 38-41 and 71) is I/O. Only the flip of one key is modelled.
- `isLoading` and `showSettings` only drive rendering, so they are not modelled.
- `new Date(...)`, `toLocaleString` and `formatDate` (lines 100-101, 229, 267-277) are locale-dependent date handling. Timestamps are integers, and the date cell of the CSV is the text of a `dateText` parameter.
- The Blob, URL and anchor download in `exportToCSV` (lines 242-248) is DOM I/O. The model stops at the CSV text.
- The chart bar widths (the `Math.max(..., 1)` denominators at lines 350-351, and the percentage widths at lines 486-542) are floating-point percentages in JSX. Only the integer counts of `getChartData` are modelled.
- Every text field of a loaded row is a string. The table may hold a row whose name, email, service or message is null. The source does not guard against one: the search at lines 84-87 and `message.replace` at line 233 would throw a TypeError, and the template at line 239 would write the text `null`. Null fields and these failures are not modelled.
- `toLowerCase` folds only the ASCII letters A-Z here. Unicode case folding is not modelled.
- Filtering.SortByDate: the engine's `Array.prototype.sort` works in place on the copied array. It is modelled as a pure stable sort on a sequence value, so in-place update and aliasing are not captured.
- Dashboard.AdminDashboard.LoadSubmissions: requires the loaded rows to have unique ids. The table's primary key guarantees this, but the source never checks it.
- `app/portal/page.tsx`, `app/portal/page.js` and `app/page.js` are presentational pages with hard-coded mock data, tab switching and an alerting submit handler. They are not part of this model.
