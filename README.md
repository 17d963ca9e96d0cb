# HSR Motors lead management: a verified model of the data core

The lead management dashboard keeps a table of sales leads in a CSV file.
It loads the file into a session table when the script first runs. It shows
KPIs, a lead-source breakdown and a per-salesperson view of that table. It
also offers an editable, filtered listing whose edits are merged back into
the table by LeadID and saved. This project models that data core in Dafny
and proves what it does.

- `Leads` (leads.dfy): the twelve columns, the option lists, the defaults,
  the table as read from the file (`RawTable`: the set of columns present
  and one `RawRow` of optional cells per line), and the loaded row (`Lead`).
- `Loader` (loader.dfy): `initialize_data`. `Load` is its specification, a
  function from the parsed file (or `None` when reading failed) to either
  the loaded table or the error that made it fall back to the empty table.
  `InitializeData` is the step-by-step version. It runs over an array
  frame: fill the three defaulted columns, insert line-number IDs, drop
  incomplete lines. It is proved equal to `Load`.
- `Reconciler` (reconciler.dfy): pandas `DataFrame.update` on the LeadID
  index, as `update_main_dataframe` uses it, with the behaviour of pandas
  1.x and 2.x. `update` first runs `other.reindex(self.index)`. When the
  edited view's index equals the table's, this is the identity and rows are
  overlaid by position. Otherwise rows are matched by LeadID, and a repeated
  LeadID in the view raises. `Merge` is the specification. `UpdateFrame` is
  the in-place loop, proved equal to it.
- `Listing` (listing.dfy): the listing's search box and status filter.
- `Dashboard` (dashboard.dfy): the overall KPIs and conversion rate, the
  seven-bucket lead-source distribution, the sorted list of owners, and
  each owner's KPIs.
- `Session` (session.dfy): the session table as a class.
  - Its constructor runs the load.
  - `UpdateMainDataframe` merges, replaces the table and records the save.
  - `SubmitListingEdits` applies the "anything changed?" guard of the
    listing page.
- `Selection`, `Text`, `Wrappers`: boolean-mask selection and
  `value_counts`, literal case-insensitive substring search, `str(int)`,
  Python's string order, and `Option`/`Result`.

A LeadID column with a blank cell is not renumbered:
`df.insert(0, 'LeadID', ...)` raises because the column already exists
(app.py:116-117), and the handler returns an empty table (app.py:120-122),
so one blank ID empties the whole session table. IDs are assigned only when
the column is absent. See `Loader.LoadWithBlankIdIsEmpty`.

A file's own LeadID column may repeat an ID, and the load keeps both rows
(`set_index` does not check uniqueness). An edit to one listed lead then
overwrites every lead with that ID (`Reconciler.EditOverwritesSharedId`).
When the listing is not the whole table, a view that itself repeats the ID
cannot be merged back (`Reconciler.PartialViewOfSharedIdFails`).

## Model

| member | source | states |
|---|---|---|
| Loader.InitializeData | app.py:99-123 | The imperative load returns exactly what `Load` specifies. On success the table is `Load`'s table. On failure it returns the error and the empty table. |
| Loader.FillDefaultColumn | app.py:112-115 | Adding a missing defaulted column and `fillna` change only that column's cells, and fill every blank one with the default. |
| Loader.InsertIds | app.py:116-117 | Without a LeadID column, line `j` gets the ID `j + 1`. Every other cell is unchanged. |
| Loader.DropIncomplete | app.py:118 | `dropna(subset=['FullName','Status'])` keeps, in order, exactly the lines with both cells. |
| Loader.LoadKeepsCompleteLines | app.py:109-119 | A successful load keeps exactly the complete lines, in file order. Each kept row has defaults filled, its ID from the file or its line number, and its other cells as read. |
| Loader.LoadedRowsComplete | app.py:112-118 | Every loaded row has FullName and Status, and its Owner, LeadSource and InterestStatus filled. |
| Loader.LoadAssignsLineNumbers | app.py:116-117 | Without a LeadID column, the IDs are line numbers in 1..n, strictly increasing and distinct. |
| Loader.LoadWithBlankIdIsEmpty | app.py:116-122 | One blank LeadID cell makes `insert` raise, and the session table becomes empty. |
| Loader.LoadHeaderOnly | app.py:107-110 | A missing or empty file is replaced by the header-only file, which loads as the empty table without error. |
| Reconciler.Find | app.py:141 | The lookup of an edited row by LeadID finds a row with that key exactly when one exists. |
| Reconciler.UpdateFrame | app.py:140-141 | The in-place copy-and-update loop returns exactly `Merge`. |
| Reconciler.MergeByKey | app.py:140-141 | The merge fails exactly when the edited view repeats a LeadID and its index is not the table's own. A successful merge keeps the original's length, keys and order. With unique edited keys, rows whose key was not edited are unchanged, and edited rows take every non-blank edited cell and keep their own cell where the edit is blank. With the table's own index, row i is overlaid by edited row i. |
| Reconciler.MergeIgnoresUnknownKey | app.py:141 | With unique edited keys, an extra edited row whose LeadID is not in the table changes nothing. With repeated edited keys, that extra row makes the merge fail, because the view's index is no longer the table's. |
| Reconciler.ReindexedByKey | app.py:141 | With unique edited keys, matching rows by position on an equal index and matching them by LeadID give the same edited row. |
| Reconciler.MergeRepeatedKeyInTableOrder | app.py:141 | When the listing is the whole table, two leads sharing a LeadID can still be edited: an edit to the first one's Notes lands on that row only. |
| Reconciler.EditOverwritesSharedId | app.py:141 | When two leads share a LeadID and the view holds one edited row with that ID, the edit is laid over both leads. The second lead takes the edited Status too. |
| Reconciler.PartialViewOfSharedIdFails | app.py:141 | When two leads share a LeadID and the listing leaves out another lead, merging the view back fails. |
| Reconciler.MergeUneditedView | app.py:141 | Merging back any unedited selection of a table with distinct keys gives the table itself. |
| Reconciler.MergeIdempotent | app.py:141 | Applying the same edit twice gives the same table as applying it once. |
| Reconciler.MergeSingleStatusEdit | app.py:141 | In a table with distinct LeadIDs, changing one lead's Status in the view changes exactly that lead's Status in the table. |
| Session.LeadSession.constructor | app.py:125-127 | The session starts with the loaded table (or the empty one, with its load error), with every row loaded and nothing saved. Every row has an Owner, so the salesperson list is defined. |
| Session.LeadSession.UpdateMainDataframe | app.py:139-144 | The session table becomes the merge of the old table with the edits, and stays loaded, every row with an Owner. The saved copy is updated only when the save succeeds. A failed merge changes nothing. |
| Session.LeadSession.SubmitListingEdits | app.py:294-295 | The table is merged exactly when the edited view differs from the filtered view. Otherwise nothing changes. After a change with a successful merge, the table is the merged one and the saved copy is the merged table when the save succeeds, the old one otherwise. A failed merge changes nothing. |
| Session.UneditedListingIsNoOp | app.py:254-268 | For any search text and status selection, merging the unedited listing back leaves a table with distinct IDs unchanged. |
| Listing.FilterListingIsWhere | app.py:256-268 | The search mask followed by the status mask is one mask: the lead matches the query (or the query is empty) and its Status is selected. |
| Listing.FilterListingSelects | app.py:254-268 | The listing is an order-preserving selection of the table. A lead is listed exactly when its Status is selected and, for a non-empty query, its name or ID text contains the query, ignoring case. |
| Listing.DefaultSelectionListsOpenLeads | app.py:262-268 | The initial Status selection is drawn from the status options, and with it only New, Contacted and Qualified leads are listed, never Lost Sale, Sold, Disqualified or Unreachable ones. |
| Leads.DefaultsAreOptions | app.py:112 | The LeadSource and InterestStatus defaults are among the source and interest options the editor offers. |
| Listing.SearchIgnoresQueryCase | app.py:256-258 | For every query, searching for its lower-cased form lists the same leads. |
| Text.ContainsIff | app.py:257-258 | The substring search holds exactly when the needle occurs at some position of the text. |
| Text.ContainsIgnoreCaseFolds | app.py:257-258 | Case-insensitive search ignores the casing of both the text and the query. |
| Text.NatText | app.py:258 | The decimal text of a natural number is non-empty, made of digits, and has no leading zero. |
| Text.DecimalTextRoundTrip | app.py:258 | The text `astype(str)` gives an integer ID parses back to the same integer, so ID search reads the real ID. |
| Text.LexLessIrreflexive | app.py:303 | Python's string order is irreflexive. |
| Text.LexLessTransitive | app.py:303 | Python's string order is transitive. |
| Text.LexLessTotal | app.py:303 | Any two distinct strings are ordered one way or the other. |
| Dashboard.ConversionRate | app.py:162 | With no leads the rate is 0. Otherwise rate × total = qualified × 100, and the rate lies in [0, 100]. |
| Dashboard.OverallKpisBounds | app.py:157-162 | No KPIs exactly for the empty table. Each count is at most the total. Contacted + Qualified + Sold is at most the total. The rate is `ConversionRate(qualified, total)`. |
| Dashboard.KpisOfFourStatuses | app.py:157-162 | Four leads with statuses New, Contacted, Qualified, Sold give counts 1, 1, 1 and a rate of 25. |
| Dashboard.Distribution | app.py:177 | One (value, count) entry per listed value, in the listed order. |
| Dashboard.DistributionTotal | app.py:177 | The counts of the entries add up to the sum of the per-value counts of the listed values. |
| Dashboard.SourceDistributionEntries | app.py:176-177 | Exactly the seven sources, in their fixed order, each with its count of leads (0 for an absent source). |
| Dashboard.SourceDistributionTotal | app.py:176-177 | The seven counts sum to at most the number of leads, and exactly to it when every source is in the list. |
| Dashboard.SourcesOfThreeFacebookLeads | app.py:176-177 | Three Facebook leads give Facebook 3 and every other source 0. |
| Dashboard.InsertSortedSpec | app.py:303 | Inserting into a strictly sorted list keeps it strictly sorted, and adds exactly the new element. |
| Dashboard.SortedDistinctSpec | app.py:303 | `sorted(set(...))` is strictly sorted and holds exactly the input's elements. |
| Dashboard.OwnerListSpec | app.py:303 | The salesperson list is strictly sorted, and holds exactly the owners that occur in the table. |
| Dashboard.OwnerSlicesPartition | app.py:303-306 | The per-owner slices of the listed owners add up to the whole table. |
| Dashboard.OwnerSliceEmpty | app.py:306-309 | An owner has no KPIs exactly when no lead has that owner. |
| Dashboard.SalespersonKpisOverOwnerRows | app.py:306-314 | An owner's KPIs count only that owner's leads: total, Qualified, Interested, and the rate `ConversionRate(qualified, total)`. |
| Dashboard.ListedOwnersHaveKpis | app.py:303-309 | Every owner offered in the select box has at least one lead, so the page shows KPIs rather than the "No leads assigned" warning. |
| Selection.WhereSelects | app.py:268 | Boolean-mask selection keeps exactly the rows satisfying the mask, in their original order. |
| Selection.WhereWhere | app.py:256-268 | Selecting with one mask and then another is selecting with both. |
| Selection.SumCountsDistinct | app.py:177 | For distinct values, the sum of per-value counts is the number of rows whose value is among them. |

## Left out

- The Streamlit page layout, CSS, navigation, messages and toasts (app.py:12-94, 337-349) are presentation only.
- Plotly charts are not modelled. Their data (counts per status, source and month) is only partly modelled: the source counts are.
- Reading and writing the CSV file is outside the model. The load starts from the parsed table, or `None` when reading failed. pandas' parsing of NA tokens (such as the text "N/A" becoming a blank cell) is assumed done. The save is modelled only as the `saved` field and a success flag.
- `time.sleep` and `st.rerun` are timing and control flow of the UI.
- `pd.to_datetime(..., errors='coerce')` (app.py:111) and the monthly trend (app.py:218-222) are left out, because date parsing is not modelled. CreatedDate is carried as an opaque optional value. Writing the Month column into the session table is not modelled either.
- The status value_counts behind the two status bar charts (app.py:230, 323) are not modelled, since their only use is chart input.
- The conversion rate is an exact rational, and the `:.1f` rounding of the display is not modelled.
- `str.contains` runs with `regex=True` in pandas. The model reads the query as literal text with ASCII case folding. Queries with regex metacharacters, and non-ASCII letters, can behave differently in the source.
- LeadID is modelled as an integer. Float or text IDs from the file, and the `.0` text of float IDs in the search, are not modelled.
- An optional column absent from the file is modelled as a column of blank cells. Columns outside the twelve are not modelled.
- Dashboard.OwnerList: requires every row to have an Owner. Sorting a mix of text and NaN raises in Python, and that failure is not modelled. Every session table satisfies the requirement, because loading fills Owner and merges never blank a cell. The session's constructor and update methods state it.
- The Salesperson page on the column-less empty table after a failed load raises a KeyError on 'Owner'. The model treats that table as an empty table of leads.
- The data editor's restrictions (disabled columns, select-box choices) are not modelled. Any edited table may be submitted.
- pandas dtype effects on `DataFrame.equals` and on the column types after `update` are not modelled. Equality is value equality of rows.
- Reconciler.Merge: models `DataFrame.update` as pandas 1.x and 2.x run it. Later versions check `other.index.is_unique` up front. They refuse a repeated edited LeadID even when the view's index is the table's own, and they refuse a view that shares no LeadID with the table. The model accepts both cases.
