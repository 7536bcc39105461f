# Tool checkout client: a verified model of its local logic

This project models, in Dafny, the three pieces of local logic in a mobile web
client for borrowing and returning workshop tools. The backend (stock counts, the
loan table, the activity log, the handover procedure) is outside the model. Its
query results are inputs.

- **Dashboard "active tools" reconciliation** (`src/app/page.tsx`). `fetchData`
  builds a dictionary keyed by item name in three passes:
  - loan rows (`peminjaman` joined with `inventaris_utama`) are written in, and a
    later row for the same name overwrites an earlier one;
  - directly assigned catalogue rows are added only under names that are still free;
  - the activity log, fetched newest-first, is reversed and replayed. A `Pinjam`
    (borrow) entry inserts its item if absent. A `Kembali` (return) entry deletes it.

  `ActiveTools` states the passes as folds (`SeedLoans`, `AddDirect`, `Replay`,
  combined in `ToolStatesOf`) and proves precedence, provenance and removal
  properties about them. `Dashboard.BuildToolStates` is the loop version over a
  map variable, proved equal to the fold. `Dashboard.TechnicianDashboard` holds the
  page state and the two cache slots. A failed log query aborts before anything is
  computed or cached. `Dashboard.RouteId` is the handover route a tool card opens.
- **Asset catalogue** (`src/app/assets/page.tsx`), in module `Catalogue`:
  - the three-way stock label (`Habis`/`Terbatas`/`Tersedia`);
  - the `isAvailable` flag;
  - the case-insensitive search over name, category and location, which keeps order;
  - the "TERSEDIA"/"HABIS" summary counts.
- **Personal-asset condition picker** (`src/app/personal-assets/page.tsx`), in
  module `PersonalAssets`:
  - which pill is lit;
  - what a click does to the pending condition;
  - when "save" is offered;
  - the save handler. It is a class `ConditionSheet` whose methods update
    `assets`, `selected`, `pending` and `isUpdating`. The remote update's outcome
    is a `success` parameter.

Text helpers (`Text`): ASCII lower-casing, `includes`, first-occurrence `replace`
and decimal rendering of integers.

Behaviour of the code worth knowing:
- Several loan rows for one name keep the **last** one, while directly assigned
  assets keep the **first**.
- The three queries are awaited one after another, not concurrently.
- A failed log query aborts the whole reconciliation. A failed loan or assignment
  query is skipped and the rest still runs.

## Model

| member | source | states |
|---|---|---|
| `Dashboard.BuildToolStates` | src/app/page.tsx:123-182 | The three loops (loans overwrite, direct assets insert if absent, reversed logs insert-if-absent/delete) leave exactly the dictionary `ToolStatesOf` describes |
| `Dashboard.TechnicianDashboard.FetchData` | src/app/page.tsx:99-191 | No technician name: nothing changes. Failed log query: tools, logs and both caches are unchanged and loading ends. Otherwise logs and tools are set and cached, and the tools are the reconciled dictionary |
| `Dashboard.TechnicianDashboard.constructor` | src/app/page.tsx:78-97 | On mount the tool list and recent logs start from the cache (empty when absent) and loading is on |
| `Dashboard.RouteOfStaticTool` | src/app/page.tsx:303 | A directly assigned asset's card routes to that asset's id, whether the id is truthy or falls back to the `static-`-stripped entry id |
| `Dashboard.RouteOfLoanTool` | src/app/page.tsx:303 | A loan card routes to the asset id; with asset id 0 (falsy) it falls back to the unchanged `loan-<id>` text |
| `Dashboard.RouteOfLogTool` | src/app/page.tsx:303 | A card taken from a borrow log has no item id and routes to the log's own id |
| `Dashboard.IdText` | src/app/page.tsx:130-154 | Renders an entry's `id`: `loan-<loan id>`, `static-<asset id>`, or a log's own id; `RouteOfStaticTool`, `RouteOfLoanTool` and `RouteOfLogTool` state what it leads to |
| `Dashboard.RouteId` | src/app/page.tsx:303 | The handover route segment: `item_id` when present and not 0, otherwise the `id` text with its first `static-` removed; its value for each kind of entry is stated by the three `RouteOf` lemmas |
| `ActiveTools.ToolStatesOf` | src/app/page.tsx:123-180 | The dictionary `fetchData` builds: the loan pass, then the direct pass, then the reversed logs replayed; its properties are the whole-routine lemmas below |
| `ActiveTools.LoanTool` | src/app/page.tsx:129-139 | The entry a loan row writes: id `loan-<id>`, the loan date, the asset's name and id, type `Pinjam`, condition `kondisi_awal` or "Baik" |
| `ActiveTools.StaticTool` | src/app/page.tsx:153-163 | The entry a direct asset writes: id `static-<id>`, date `updated_at`, else `created_at`, else now, condition `kondisi` or "Baik" |
| `ActiveTools.LogTool` | src/app/page.tsx:175 | The entry a borrow log writes: the log row itself, with no item id |
| `ActiveTools.SeedLoans` | src/app/page.tsx:125-141 | The loan pass as a left fold: each row with a joined asset overwrites that asset's name; its properties are `SeedLoansKeys`, `SeedLoansLastWins` and `SeedLoansFrame` |
| `ActiveTools.AddDirect` | src/app/page.tsx:150-166 | The direct pass as a left fold: an asset is written only under a name still absent; its properties are the `AddDirect` lemmas |
| `ActiveTools.Replay` | src/app/page.tsx:171-180 | The log replay as a left fold: a borrow inserts itself if its name is absent, a return deletes the name, other types change nothing; its properties are the `Replay` lemmas |
| `ActiveTools.Reversed` | src/app/page.tsx:170 | `[...logs].reverse()`; the result has the same length, and `ReversedAt` gives its elements |
| `ActiveTools.SeedLoansKeys` | src/app/page.tsx:125-141 | After the loan pass the names are the old names plus the asset name of every loan row that has a joined asset; rows without one add nothing |
| `ActiveTools.SeedLoansLastWins` | src/app/page.tsx:126-140 | The entry for a name is built from the last loan row with that asset name (id `loan-<id>`, condition `kondisi_awal` or "Baik") |
| `ActiveTools.SeedLoansFrame` | src/app/page.tsx:125-141 | A name no loan row carries keeps its entry or its absence |
| `ActiveTools.AddDirectKeeps` | src/app/page.tsx:150-166 | A directly assigned asset never overwrites an entry already present |
| `ActiveTools.AddDirectKeys` | src/app/page.tsx:150-166 | After the direct pass the names are the old names plus every direct asset's name |
| `ActiveTools.AddDirectFrame` | src/app/page.tsx:150-166 | A name no direct asset carries keeps its entry or its absence |
| `ActiveTools.AddDirectFirstWins` | src/app/page.tsx:151-164 | For a free name, the first direct asset with it supplies the entry (id `static-<id>`, condition defaulting to "Baik") |
| `ActiveTools.ReplayFrame` | src/app/page.tsx:171-180 | A name no borrow or return log mentions keeps its entry or its absence |
| `ActiveTools.ReplayLastDecides` | src/app/page.tsx:171-180 | The last log in replay order mentioning a name decides presence: a borrow leaves it present, a return leaves it absent |
| `ActiveTools.ReplayNeverReplaces` | src/app/page.tsx:173-176 | Without a return log for a name, a borrow log never replaces its existing entry |
| `ActiveTools.ReplayKeys` | src/app/page.tsx:171-180 | The replay adds only names of borrow logs |
| `ActiveTools.ReplayAppend` | src/app/page.tsx:171-180 | Replaying two log lists one after the other equals replaying their concatenation, so the replay can be reasoned about up to any log |
| `ActiveTools.ReplayFirstBorrowWins` | src/app/page.tsx:173-176 | A borrow log that finds its name absent stores itself, and with no later return for that name it is the entry left at the end |
| `ActiveTools.NamesMatchPreserved` | src/app/page.tsx:123-180 | All three passes keep every entry filed under its own item name |
| `ActiveTools.SeedLoansDerived` | src/app/page.tsx:125-141 | Entries written by the loan pass are loan entries built from the given rows |
| `ActiveTools.AddDirectDerived` | src/app/page.tsx:150-166 | Entries written by the direct pass are static entries built from the given assets |
| `ActiveTools.ReplayDerived` | src/app/page.tsx:170-180 | Entries written by the replay are borrow logs from the given list |
| `ActiveTools.ReversedAt` | src/app/page.tsx:170 | The reversed log list holds at position k the log at position n-1-k |
| `ActiveTools.ReversedSameElements` | src/app/page.tsx:170 | Reversing keeps exactly the same logs |
| `ActiveTools.ToolStatesWellFormed` | src/app/page.tsx:123-182 | Every entry is filed under its own item name. Every entry is exactly what a loan row, a direct asset or a borrow log creates. Every name comes from one of those sources |
| `ActiveTools.NewestLogDecides` | src/app/page.tsx:104-180 | With logs newest-first, the newest borrow or return log for a name decides whether it is listed, whatever the loan and assignment rows say |
| `ActiveTools.LoanEntryListed` | src/app/page.tsx:125-182 | With no return log for its name, the last loan row for an asset is listed as is, with id `loan-<id>` and condition `kondisi_awal` or "Baik" |
| `ActiveTools.DirectEntryListed` | src/app/page.tsx:150-182 | A direct asset whose name no loan carries, first of its name and with no return log, is listed with id `static-<id>` and condition `kondisi` or "Baik" |
| `ActiveTools.LogEntryListed` | src/app/page.tsx:170-180 | With logs newest-first, the oldest borrow newer than the newest return of a name supplies its entry (id and date are that log's), when a return exists or no loan or assignment row carries the name |
| `ActiveTools.UnmentionedNotListed` | src/app/page.tsx:123-182 | A name that no source row and no log mentions is not listed |
| `ActiveTools.FailedQueriesContributeNothing` | src/app/page.tsx:125-166 | A failed loan query or failed direct-asset query gives the same result as an empty one |
| `ActiveTools.NoSourcesNoTools` | src/app/page.tsx:123-182 | No loan or assignment rows and every borrow log followed by a newer return of the same item: the list is empty |
| `ActiveTools.BorrowBorrowReturnScenario` | src/app/page.tsx:170-180 | Borrow A, borrow B, return A (delivered newest-first) with no rows lists exactly B |
| `ActiveTools.ReturnLogHidesActiveLoan` | src/app/page.tsx:125-180 | A loan row still marked borrowed is hidden when the newest log for its asset is a return |
| `Catalogue.StatusFor` | src/app/assets/page.tsx:76-82 | "Habis" iff the count is at most 0, "Terbatas" iff it is 1 or 2, "Tersedia" iff at least 3: one label for every integer |
| `Catalogue.StatusMonotone` | src/app/assets/page.tsx:76-82 | A larger available count never gives a lower label |
| `Catalogue.Status` | src/app/assets/page.tsx:76-82 | `getStatusInfo(asset).label`: the label `StatusFor` gives the asset's available count |
| `Catalogue.IsAvailable` | src/app/assets/page.tsx:226 | The card's `isAvailable` flag and the "TERSEDIA" filter of line 150: available count above 0 |
| `Catalogue.IsSoldOut` | src/app/assets/page.tsx:153 | The "HABIS" filter: available count at most 0 |
| `Catalogue.AvailableIffNotHabis` | src/app/assets/page.tsx:226 | `isAvailable` holds iff the label is not "Habis"; the "HABIS" predicate holds iff it is |
| `Catalogue.Keep` | src/app/assets/page.tsx:68 | The filter result is no longer than the list and holds exactly the list's elements that satisfy the predicate |
| `Catalogue.KeepIsSubsequence` | src/app/assets/page.tsx:67-73 | The filter result is an order-preserving subsequence of the list |
| `Catalogue.KeepAll` | src/app/assets/page.tsx:68 | When every element passes, the filter returns the list unchanged |
| `Catalogue.Search` | src/app/assets/page.tsx:65-74 | The filtered list for the search box text; `SearchSpec` and `EmptyQueryKeepsAll` state what it keeps |
| `Catalogue.SearchSpec` | src/app/assets/page.tsx:65-74 | The search result is an order-preserving subsequence. An asset is kept iff its lower-cased name, category or location contains the lower-cased query |
| `Catalogue.EmptyQueryKeepsAll` | src/app/assets/page.tsx:65-74 | An empty query lists every asset |
| `Catalogue.AvailableCount` | src/app/assets/page.tsx:150 | The "TERSEDIA" figure: how many assets the filter keeps; never more than the catalogue |
| `Catalogue.SoldOutCount` | src/app/assets/page.tsx:153 | The "HABIS" figure: how many assets the filter keeps; never more than the catalogue |
| `Catalogue.CountsPartition` | src/app/assets/page.tsx:150-153 | The "TERSEDIA" count plus the "HABIS" count equals the number of assets |
| `PersonalAssets.ReplaceById` | src/app/personal-assets/page.tsx:357 | Same length; each element with the updated id becomes the updated record, all others are unchanged |
| `PersonalAssets.ReplaceByIdUnique` | src/app/personal-assets/page.tsx:357 | With unique ids, exactly the one element carrying the id is replaced |
| `PersonalAssets.ReplaceByIdMissing` | src/app/personal-assets/page.tsx:357 | A list without the id is unchanged |
| `PersonalAssets.ReplaceByIdIdempotent` | src/app/personal-assets/page.tsx:357 | Writing the same record back twice equals writing it once |
| `PersonalAssets.CurrentCondition` | src/app/personal-assets/page.tsx:324 | The selected asset's condition, lower-cased, or none when it has no condition |
| `PersonalAssets.IsPillSelected` | src/app/personal-assets/page.tsx:325 | A pill is lit when it equals the pending choice, or the current condition when nothing is pending |
| `PersonalAssets.Toggled` | src/app/personal-assets/page.tsx:330 | The pending choice after a click: none on the current condition's pill, that pill's value otherwise |
| `PersonalAssets.SaveVisible` | src/app/personal-assets/page.tsx:346 | "Save" is shown for a non-empty pending choice that differs from the current condition |
| `PersonalAssets.WithCondition` | src/app/personal-assets/page.tsx:355 | The record written back: the selected asset with its `kondisi` set to the pending value |
| `PersonalAssets.AtMostOnePillSelected` | src/app/personal-assets/page.tsx:319-325 | At most one of the three pills is lit |
| `PersonalAssets.ClickLightsClickedPill` | src/app/personal-assets/page.tsx:324-330 | After a click the clicked pill is lit and no other is. Clicking the current condition clears the pending value; any other pill becomes pending |
| `PersonalAssets.SaveOfferedAfterClick` | src/app/personal-assets/page.tsx:330-346 | After clicking a pill, "save" is shown iff that pill is not the current lower-cased condition |
| `PersonalAssets.SaveVisibleMeansChange` | src/app/personal-assets/page.tsx:346 | When "save" is shown, the pending pill is lit and the current condition's pill is not |
| `PersonalAssets.SavedPillStaysLit` | src/app/personal-assets/page.tsx:355-358 | After a pill value is saved, its pill is lit with nothing pending and "save" is hidden |
| `PersonalAssets.NoSaveWithoutSelection` | src/app/personal-assets/page.tsx:244-346 | The save button is inside the sheet: with no asset selected nothing is pending, so "save" is never offered |
| `PersonalAssets.ConditionSheet.constructor` | src/app/personal-assets/page.tsx:31-40 | Starts with the given list, no selection, nothing pending, not updating |
| `PersonalAssets.ConditionSheet.Open` | src/app/personal-assets/page.tsx:164 | Tapping a card selects that list element and changes nothing else |
| `PersonalAssets.ConditionSheet.Close` | src/app/personal-assets/page.tsx:42 | `closeModal` clears both the selection and the pending value |
| `PersonalAssets.ConditionSheet.ClickPill` | src/app/personal-assets/page.tsx:329-330 | While updating the click is ignored. Otherwise the pending value becomes null on the current condition's pill and that pill's value on any other |
| `PersonalAssets.ConditionSheet.BeginSave` | src/app/personal-assets/page.tsx:350-353 | While updating nothing is sent. Otherwise it sets `isUpdating` and captures the selected asset and the pending value |
| `PersonalAssets.ConditionSheet.FinishSave` | src/app/personal-assets/page.tsx:353-363 | On success the captured asset with the new condition becomes the selection and replaces its id in the list, and pending is cleared. On failure those are unchanged. `isUpdating` ends false either way |
| `PersonalAssets.ConditionSheet.Save` | src/app/personal-assets/page.tsx:351-364 | The handler run uninterrupted: on success only the element with the id changes and pending is cleared; on failure nothing but `isUpdating` changes |

## Left out

- Backend calls are not modelled: the Supabase table queries, the RPCs, the realtime
  channel that re-runs `fetchData`, and the image upload. Their results are parameters.
  The `ilike` name filters run on the server, so the rows given are already filtered.
  Null data without an error behaves like an empty row list in every pass.
- A query that returns data with no error is `Ok(rows)`; the error object's contents are dropped.
- `Object.values(toolStates)` yields a list whose order follows JavaScript key
  enumeration. The model keeps the dictionary (`map`) and not that order.
- Item names that are inherited properties of a plain object (`constructor`,
  `toString`, `__proto__`) are not modelled. For those names JavaScript's `!toolStates[name]` differs from a map lookup.
- `toLowerCase` is modelled for ASCII letters only; Unicode case mapping is not.
- `jumlah_tersedia` is an integer in the model; fractional or NaN counts are not modelled.
- `nama` of a catalogue row is a required string (as its interface declares), so the
  optional chaining on `nama` in the search never short-circuits.
- The route id's `item_id ||` test is modelled as "present and not 0"; a NaN id is not modelled.
- Log details carry no `item_id` (as the `ActivityLog` interface declares).
- The local-storage cache is two fields of the dashboard object. JSON encoding, the
  technician session key and the redirect to the login screen are not modelled.
- `new Date().toISOString()` is the `now` parameter.
- Logout and notification dialogs, animations, icons, colours and date formatting are not modelled.
- Two `fetchData` runs overlapping in time are not modelled. Each run is one atomic call.
- The save handler is two steps, `BeginSave` and `FinishSave`, so closing the sheet
  between them can be expressed. No other interleaving is modelled.
- Fetching the catalogue (`fetchAssets`) and the personal list (`getAssignedAssets`
  with its locale-dependent sort) are not modelled: they are network calls feeding
  the lists.
