# Bookkeeping pages: a verified model of the double-entry aggregation

The application keeps accounting **projects** in the browser. Each project holds
**seats** (journal entries), and each seat holds **details** (line items). A line item
carries:

- an account code such as `"110505-Caja"`;
- a description;
- a debit amount and a credit amount.

Five pages work on these records, and this project models each of them:

- **Trial balance** (`Balance.jsx`). It groups every line item of every seat by the
  first 4 characters of its account code and sums each group's debits and credits. It
  then folds each group's balance onto the side given by the account's nature: debit for
  codes that start with 1, 5 or 6, credit otherwise. It adds up the two folded columns
  and warns when they differ.
- **T-accounts** (`TAccounst.jsx`). It does the same with 6-character keys. Each
  T-account also keeps the list of its entries: date, description, debit and credit.
- **Seat receipt** (`SeatReceipt.jsx`). It prints one seat. It splits `"code-name"`
  account codes and comma-separated descriptions. It groups the line items by main
  account (4 characters of the code) and, inside each, by sub-account (6 characters). It
  totals the columns and marks the seat as balanced or not.
- **Seat editor** (`Seats.jsx`). It adds, edits and deletes seats and line items, saves
  every change into the stored project, and keeps the list of account codes already used.
- **Project list** (`Projects.jsx`). A form creates or updates a project. Projects can
  also be deleted or imported.

The model is split into these modules:

| module | contents |
|---|---|
| `Grouping` | Group-by-key over a sequence: the distinct keys in first-appearance order, each key's items, and sums. Partition, placement and order lemmas. |
| `Books` | The records. `parseFloat(x) \|\| 0`, `substring(0, n)`, the account nature and the nature fold (proved by the imperative `Settle`). The postings of the seats in order, and project lookup. |
| `TrialBalance` | The trial balance page. |
| `TAccounts` | The T-accounts page. |
| `Text` | JavaScript `split` on one character, `join` and `trim`. |
| `SeatReceipt` | The receipt page. |
| `SeatsEditor` | The seat editor, as the class `SeatsPage`. |
| `ProjectsList` | The project list, as the class `ProjectsPage`. |

The pages that compute their result with loops over mutable maps are modelled as methods
with the same loops:

- `LoadBalance` and `LoadTAccounts` walk seats, then details.
- `GroupReceipt` walks the line items.
- `CollectUsedAccounts` collects the used codes.

Each of these methods is proved equal to a functional specification, and the properties
are proved about that specification.

Amounts are whole numbers of cents. `RawAmount` stands for what `parseFloat` makes of a
stored field:

- `Parsed(cents)` is a number;
- `NotANumber` is `NaN`, which `|| 0` turns into 0.

Two behaviours of the code are easy to miss; the model follows the code:

- The trial balance and the T-accounts key on the **raw** prefix of `account_code`. The
  `-name` suffix is not stripped, so `"11-Caja"` is grouped under `"11-C"`.
- An empty account code forms a group of its own, keyed `""`, with credit nature.

`TrialBalance.RawPrefixExample` proves both points.

## Model

| member | source | states |
|---|---|---|
| Grouping.KeysOfSpec | src/pages/Balance.jsx:24-31 | The keys a map-by-key walk creates are distinct, each is the key of some item, every item's key is among them. |
| Grouping.KeysOfOrder | src/pages/Balance.jsx:24-31 | Keys come in order of first appearance: every item carrying a later key comes after some item carrying an earlier one. |
| Grouping.FirstListedSpec | src/pages/SeatReceipt.jsx:119 | The key `Object.values` lists first is the first array-index key of least numeric value, or the first key created when no key is an array index. |
| Grouping.GroupConcatPartition | src/pages/Balance.jsx:24-31 | Every item lands in the group of its key: the groups laid end to end are a permutation of the items. |
| Grouping.GroupSumPartition | src/pages/Balance.jsx:36-37 | Summing each group's amounts and adding up the groups gives the total over all items. |
| Books.Prefix | src/pages/Balance.jsx:21 | `substring(0, n)` is a prefix of the code, of length n or the whole code when it is shorter. |
| Books.NatureOfPrefix | src/pages/Balance.jsx:22 | The nature is debit exactly when the code starts with '1', '5' or '6'. Taking a prefix of at least one character does not change it. |
| Books.FoldedBalance | src/pages/Balance.jsx:46-58 | Both folded columns are non-negative, at most one is non-zero, and debit minus credit is the raw net. |
| Books.FoldedBalanceUnique | src/pages/Balance.jsx:46-58 | Any pair with those three properties is the fold, so the fold does not depend on the nature. |
| Books.Settle | src/pages/Balance.jsx:43-58 | The branchy `let finalDebit / finalCredit` code computes exactly `FoldedBalance`. |
| Books.SeatPostings | src/pages/Balance.jsx:18-19 | A seat yields one posting per detail, in order, each carrying the seat's date. |
| Books.PostingsTotals | src/pages/Balance.jsx:18-19 | The postings' debits and credits add up to the per-seat detail totals, seat by seat. |
| Books.PostingsCount | src/pages/TAccounst.jsx:16-17 | There are as many postings as details over all seats. |
| Books.DetailInPostings | src/pages/Balance.jsx:18-19 | Every detail of every seat is visited by the nested walk, with its seat's date. |
| Books.FindProjectIndex | src/pages/Seats.jsx:49 | `findIndex` by id: -1 exactly when no project has the id, otherwise the first project with it. |
| Books.FindProjectIndexSameIds | src/pages/Seats.jsx:49-54 | Replacing a project's seats keeps the index that `findIndex` finds. |
| TrialBalance.WalkSeat | src/pages/Balance.jsx:19-38 | The inner loop over one seat's details extends the map and key order so that it matches all details seen so far. |
| TrialBalance.FoldAccounts | src/pages/Balance.jsx:42-61 | The map-and-fold yields, key by key in order, the folded row of each account. |
| TrialBalance.LoadBalance | src/pages/Balance.jsx:18-70 | The rows are the specification `Rows` of all postings, and the two sums are the sums of the folded columns. |
| TrialBalance.TrialBalanceKeys | src/pages/Balance.jsx:21-31 | Row codes are the distinct 4-character raw prefixes, in first-appearance order. A code has a row exactly when some detail carries it. |
| TrialBalance.TrialBalanceRow | src/pages/Balance.jsx:22-61 | Each row's totals are the sums over its key's details, its nature follows its code, and its folded columns keep the net. |
| TrialBalance.RowsNet | src/pages/Balance.jsx:66-67 | For any leading run of rows, the folded debit sum minus the folded credit sum equals the raw net of those groups. |
| TrialBalance.TrialBalanceConservation | src/pages/Balance.jsx:66-67 | Folded debit sum minus folded credit sum equals all raw debits minus all raw credits. |
| TrialBalance.ImbalanceWarningIffUnbalanced | src/pages/Balance.jsx:114-118 | The warning shows exactly when total raw debits and total raw credits differ. |
| TrialBalance.DetailInItsGroup | src/pages/Balance.jsx:24-37 | Every detail is counted in the group of its own key. |
| TrialBalance.OneSeatTwoDetails | src/pages/Balance.jsx:18-19 | One seat with two details gives exactly those two postings, in order. |
| TrialBalance.BalancedExample | src/pages/Balance.jsx:18-67 | A balanced two-line sale gives a debit row 1105 and a credit row 4135, and no warning. |
| TrialBalance.RawPrefixExample | src/pages/Balance.jsx:21-22 | The key is the raw prefix (`"11-C"`). An empty code is its own credit group. A debit account with only credits shows in the credit column. |
| TAccounts.Entries | src/pages/TAccounst.jsx:32-40 | One entry per posting, in order, with the seat's date, the description and the parsed amounts. |
| TAccounts.WalkSeat | src/pages/TAccounst.jsx:17-44 | The inner loop over one seat's details extends the map, the entry lists and the key order to match all details seen so far. |
| TAccounts.FoldAccounts | src/pages/TAccounst.jsx:48-67 | The map-and-fold yields, key by key in order, the folded T-account. |
| TAccounts.LoadTAccounts | src/pages/TAccounst.jsx:16-69 | The T-accounts are the specification `Rows` of all postings. |
| TAccounts.TAccountKeys | src/pages/TAccounst.jsx:19-30 | T-account codes are the distinct 6-character raw prefixes, in first-appearance order. A code has one exactly when some detail carries it. |
| TAccounts.EntriesSums | src/pages/TAccounst.jsx:32-43 | The entries' debits and credits add up to the postings' amounts. |
| TAccounts.TAccountRow | src/pages/TAccounst.jsx:20-67 | Each T-account's totals equal the sums of its own entries. Its nature follows its code. The fold only adds final columns that keep the net. |
| TAccounts.EntriesCountDetails | src/pages/TAccounst.jsx:35-40 | The number of entries over all T-accounts equals the number of details over all seats. |
| TAccounts.EntriesPartition | src/pages/TAccounst.jsx:24-40 | The entries of all T-accounts together are a permutation of the entries of all postings: each detail's entry appears exactly as often as the postings give it. |
| TAccounts.DetailEntry | src/pages/TAccounst.jsx:19-40 | The i-th detail is an entry of its own key's T-account, with its seat's date, its description and its amounts. |
| TAccounts.EntryOrder | src/pages/TAccounst.jsx:35-40 | Entries of one T-account follow seat order, then detail order. |
| Text.TrimStartSpec | src/pages/SeatReceipt.jsx:33 | Dropping leading space leaves a suffix that starts with a non-space; everything dropped is white space. |
| Text.TrimEndSpec | src/pages/SeatReceipt.jsx:33 | Dropping trailing space leaves a prefix that ends with a non-space; everything dropped is white space. |
| Text.TrimSpec | src/pages/SeatReceipt.jsx:33-34 | `trim` keeps a contiguous piece, drops only white space around it, and leaves none at either end. |
| Text.TrimChars | src/pages/SeatReceipt.jsx:33-34 | Trimming adds no character. |
| Text.TrimNoop | src/pages/SeatReceipt.jsx:40 | A string with no white space at its ends is its own trim. |
| Text.TrimIdempotent | src/pages/SeatReceipt.jsx:40 | Trimming twice is trimming once. |
| Text.BeforeAfterSpec | src/pages/SeatReceipt.jsx:32 | The text before the first separator has no separator. When there is a separator, the string is before + separator + after. |
| Text.SplitSpec | src/pages/SeatReceipt.jsx:32 | `split` pieces contain no separator, number one more than the separators, and start with the text before the first separator. |
| Text.JoinSplit | src/pages/SeatReceipt.jsx:40 | Joining the pieces of a split gives the string back. |
| Text.SplitJoin | src/pages/SeatReceipt.jsx:40 | Splitting separator-free pieces joined by the separator gives the pieces back. |
| Text.SplitNoSep | src/pages/SeatReceipt.jsx:32 | A string without the separator splits into itself. |
| Text.SplitPrefix | src/pages/SeatReceipt.jsx:32 | A separator-free head followed by a separator becomes the first piece. |
| SeatReceipt.SplitAccountCodeSpec | src/pages/SeatReceipt.jsx:30-36 | An empty code gives empty halves. The code half is the trimmed text before the first '-'. The name half is the trimmed text between the first and second '-', or "". Neither half holds '-'. |
| SeatReceipt.SplitAccountCodeRoundTrip | src/pages/SeatReceipt.jsx:30-36 | Splitting `code + "-" + name`, for trimmed halves without '-', gives back `code` and `name`. |
| SeatReceipt.DescriptionPartsSpec | src/pages/SeatReceipt.jsx:38-41 | An empty description gives no parts. Otherwise there is one part more than there are commas, each part trimmed and comma-free. |
| SeatReceipt.DescriptionPartsRoundTrip | src/pages/SeatReceipt.jsx:38-41 | Trimmed, comma-free parts joined with ',' split back into the same parts. |
| SeatReceipt.SplitDateRoundTrip | src/pages/SeatReceipt.jsx:28 | `year-month-day` splits back into its three parts. |
| SeatReceipt.ShownDateEmpty | src/pages/SeatReceipt.jsx:96 | A seat without a date shows `--/--/--`; the date is split on line 28. |
| SeatReceipt.ShownDateExample | src/pages/SeatReceipt.jsx:96 | `2024-03-15` is shown day/month/year. |
| SeatReceipt.Partial | src/pages/SeatReceipt.jsx:159-161 | The partial column shows the parsed debit whenever it is non-zero, otherwise the parsed credit, and is blank exactly when both are zero. |
| SeatReceipt.GroupReceipt | src/pages/SeatReceipt.jsx:44-62 | The grouping loop yields exactly the specification `Receipt` of the line items. |
| SeatReceipt.ValuesAreReceipt | src/pages/SeatReceipt.jsx:62 | The values of the walked map, in key order, are the receipt's groups. |
| SeatReceipt.ReceiptAccounts | src/pages/SeatReceipt.jsx:46-49 | Main accounts are distinct, each comes from some line item, and every line item's main account group is on the receipt. |
| SeatReceipt.SubAccountShape | src/pages/SeatReceipt.jsx:51-56 | A sub-account extends its main account's code, is non-empty, and holds only line items with its codes. |
| SeatReceipt.ReceiptTotals | src/pages/SeatReceipt.jsx:58-59 | The main-account debits (credits) add up to the seat's debit (credit) total of lines 23-26. |
| SeatReceipt.BalancedIffColumnsAgree | src/pages/SeatReceipt.jsx:185-189 | The "balanced" mark shows exactly when the main-account columns add up to equal sums. |
| SeatReceipt.SubCounts | src/pages/SeatReceipt.jsx:51-56 | The sub-accounts of a group together hold all its line items. |
| SeatReceipt.ReceiptCount | src/pages/SeatReceipt.jsx:46-56 | The number of line items the receipt prints, over all main accounts, equals the number of line items of the seat. |
| SeatReceipt.ReceiptItems | src/pages/SeatReceipt.jsx:46-56 | The line items printed under all main accounts and sub-accounts together are a permutation of the seat's: each is printed exactly as many times as the seat holds it. |
| SeatReceipt.DetailInReceipt | src/pages/SeatReceipt.jsx:46-56 | Each line item is printed under its main and sub-account at its place among them. |
| SeatReceipt.AuxOrder | src/pages/SeatReceipt.jsx:56 | Line items of one sub-account keep the seat's order and share the main account. |
| SeatReceipt.MainLabelSpec | src/pages/SeatReceipt.jsx:119-121 | The main account's label is the first description part of the first line item of the sub-account `Object.values` lists first. |
| SeatReceipt.MainLabelIsFirstDetail | src/pages/SeatReceipt.jsx:119-121 | When no sub-account code is an array index, the label is the first description part of the seat's first line item booked to the main account. |
| SeatReceipt.MainLabelExample | src/pages/SeatReceipt.jsx:119-121 | With sub-accounts 110510 and then 110505 under 1105, the label is taken from the 110505 line item, the second one in the seat. |
| SeatsEditor.WithSeatField | src/pages/Seats.jsx:78-83 | Editing a seat's date or description changes that field only. |
| SeatsEditor.WithDetailField | src/pages/Seats.jsx:96-99 | Editing a line item's field changes that field only. |
| SeatsEditor.Remember | src/pages/Seats.jsx:100-105 | Remembering a code adds it when it is non-empty and new. The list stays duplicate-free and keeps its order. |
| SeatsEditor.UsedAccountsSpec | src/pages/Seats.jsx:34-44 | The used accounts are duplicate-free and non-empty. A code is used exactly when some line item of some seat carries it. |
| SeatsEditor.UsedAccountsStep | src/pages/Seats.jsx:34-44 | Collecting one more line item is remembering its code. |
| SeatsEditor.CollectSeat | src/pages/Seats.jsx:37-41 | The inner loop over one seat extends the collected list to cover that seat. |
| SeatsEditor.CollectUsedAccounts | src/pages/Seats.jsx:34-44 | The loops yield exactly the specification `UsedAccountsOf` of all line items. |
| SeatsEditor.CarriedCodeUsed | src/pages/Seats.jsx:36-40 | A non-empty code carried by any line item of any seat is among the used accounts. |
| SeatsEditor.SpliceOneRow | src/pages/Seats.jsx:112-117 | `splice(j, 1)` on a valid index removes exactly row j and lowers the totals by its amounts. |
| SeatsEditor.SpliceOnePastEnd | src/pages/Seats.jsx:114 | `splice` past the end removes nothing. |
| SeatsEditor.AddRowKeepsTotals | src/pages/Seats.jsx:86-93 | A new empty line item changes neither the totals nor the balanced mark. |
| SeatsEditor.EditTotals | src/pages/Seats.jsx:120-125 | Editing a line item moves the totals by the change in that item's amounts. Editing its code or description leaves them unchanged. |
| SeatsEditor.WithoutSeatSpec | src/pages/Seats.jsx:69-75 | Deleting keeps exactly the seats with other ids, in order. |
| SeatsEditor.SaveThenLoad | src/pages/Seats.jsx:47-57 | Saving replaces only the seats of the first project with the id, or nothing when there is none. Reloading (lines 22-26) then shows the seats saved. |
| SeatsEditor.SeatsPage.constructor | src/pages/Seats.jsx:22-44 | Opening the page loads the project's seats and their used accounts. |
| SeatsEditor.SeatsPage.RefreshUsedAccounts | src/pages/Seats.jsx:34-44 | Recomputes the used accounts from the seats and changes nothing else. |
| SeatsEditor.SeatsPage.SaveSeats | src/pages/Seats.jsx:47-57 | The stored projects become `Saved(...)`; the seats shown are unchanged. |
| SeatsEditor.SeatsPage.AddNewSeat | src/pages/Seats.jsx:60-66 | Appends an empty seat of this project with the given fresh id. It saves, and the used-accounts effect (lines 34-44) collects the accounts again from the new seats. |
| SeatsEditor.SeatsPage.DeleteSeat | src/pages/Seats.jsx:69-75 | Removes the seats with that id. It saves, and the used accounts are collected again, so codes used only by the deleted seats drop out. |
| SeatsEditor.SeatsPage.HandleSeatChange | src/pages/Seats.jsx:78-83 | Changes one field of one seat. It saves and collects the used accounts again. |
| SeatsEditor.SeatsPage.AddDetailRow | src/pages/Seats.jsx:86-93 | Appends an empty line item to one seat. It saves and collects the used accounts again. |
| SeatsEditor.SeatsPage.HandleDetailChange | src/pages/Seats.jsx:96-109 | Changes one field of one line item and saves. The used accounts end up as those collected from the new seats, and a non-empty code just entered is among them. |
| SeatsEditor.SeatsPage.RemoveDetailRow | src/pages/Seats.jsx:112-117 | Splices one line item out of one seat. It saves and collects the used accounts again. |
| SeatsEditor.SeatsPage.CalculateTotals | src/pages/Seats.jsx:120-125 | Returns the seat's debit and credit sums, whose behaviour under the page's edits is proved by `AddRowKeepsTotals`, `EditTotals` and `SpliceOneRow`; the mark shows balanced exactly when they are equal. |
| ProjectsList.OrEmpty | src/pages/Projects.jsx:74-75 | `x \|\| ""`: a missing name reads as "". |
| ProjectsList.UpdateProjectSpec | src/pages/Projects.jsx:29-46 | Updating keeps the length and every other project. The edited project keeps its id and seats and takes the form's fields. A missing id changes nothing. |
| ProjectsList.FormOf | src/pages/Projects.jsx:69-76 | The form filled for editing shows the project's fields, with missing names as "". |
| ProjectsList.EditSubmitRoundTrip | src/pages/Projects.jsx:69-77 | Editing a project and submitting the unchanged form (lines 29-46) gives the project back. The only change is that missing company or auditor names become "". |
| ProjectsList.WithoutProjectSpec | src/pages/Projects.jsx:79-82 | Deleting keeps exactly the projects with other ids, in order, and no project with that id remains. |
| ProjectsList.ProjectsPage.constructor | src/pages/Projects.jsx:15-18 | Opening the page loads the stored projects with an empty form. |
| ProjectsList.ProjectsPage.HandleSubmit | src/pages/Projects.jsx:25-63 | Without a name or a date nothing changes. Otherwise the edited project is updated, or a new project is appended. Then name, description and date are cleared and editing ends. |
| ProjectsList.ProjectsPage.HandleEdit | src/pages/Projects.jsx:69-77 | Fills the form from the first project with the id and remembers that id. |
| ProjectsList.ProjectsPage.HandleDelete | src/pages/Projects.jsx:79-82 | Removes the projects with that id. |
| ProjectsList.ProjectsPage.HandleImport | src/pages/Projects.jsx:93-107 | Appends the imported project. Nothing changes when there is no file or its text is not valid JSON (`None`). |

## Left out

- Browser storage and JSON encoding. The stored project list is a value: `storedProjects`
  in `SeatsPage`, `projects` in `ProjectsPage`. Reading a file and parsing JSON
  (`handleImport`) are an `Option<Project>` input. Export (`handleExport`, writing a file)
  is not modelled.
- Rendering, navigation (`handleOpenSeats`), scrolling, the select widget, printing and
  `alert`. Only the values the pages compute and show are modelled.
- Fresh identifiers. `uuidv4()` and `Date.now()` are parameters of `AddNewSeat` and
  `HandleSubmit`. A `Date.now()` id that collides with an existing one is not considered.
- Floating point. Amounts are integers of cents, so rounding in sums is not modelled.
  Turning text into a number is abstracted as `RawAmount`.
- Locale formatting (`toLocaleString`) and the receipt number
  (`seatId.slice(0, 5).toUpperCase()`). Both are display only.
- `Object.values` order. JavaScript lists array-index keys (such as `"1105"`) first, in
  ascending numeric order, and then the other keys in insertion order. The model lists
  the trial balance rows, the T-accounts, the receipt's main accounts and the
  sub-accounts inside each main account in first-appearance order, so the page may show
  them in another order. The one value that depends on this order, the main account's
  label, is computed in the page's order (`FirstListed`).
- Characters. A Dafny `char` is a Unicode scalar value, while JavaScript's
  `substring(0, n)`, `split` and `trim` count UTF-16 code units. Codes with characters
  outside the Basic Multilingual Plane can get different prefixes than on the page.
- ProjectsList.ProjectsPage.HandleImport: valid JSON that is not a project (such as
  `{}`, `42` or `[1]`) is appended by the page. The model only appends a parsed project,
  so it does not capture a list holding such values.
- The `seatCounter` effect (src/pages/Seats.jsx:29-31), which only counts seats.
- Loading the receipt's seat (src/pages/SeatReceipt.jsx:11-19). `Receipt` takes the
  seat's line items directly. The sub-account and line-item label text
  (src/pages/SeatReceipt.jsx:143,157) is not modelled beyond `DescriptionParts` and
  `SplitAccountCode`.
- SeatsEditor.SeatsPage.HandleSeatChange: only the `date` and `description` fields are
  modelled, because the page never passes another field name.
- SeatsEditor.SeatsPage.HandleSeatChange, AddDetailRow, HandleDetailChange,
  RemoveDetailRow, CalculateTotals: these require a seat index in range. JavaScript would
  throw on `undefined.details` for an index out of range.
- SeatsEditor.SeatsPage.HandleDetailChange: also requires a line-item index in range,
  because `details[detailIndex][field] = value` throws on `undefined` (src/pages/Seats.jsx:98).
- ProjectsList.ProjectsPage.HandleEdit: requires a project with the id, because
  `projectToEdit.name` throws when `find` returns `undefined`.
- Aliasing. The JavaScript copies the seat list shallowly (`[...seats]`) and mutates the
  shared seat objects in place. The model builds new values, so it does not capture a
  state where the old and new lists share mutated seats.
- React scheduling. The used-accounts effect depends on the seats, so it runs after every
  handler that replaces them. The model calls `RefreshUsedAccounts` at the end of each such
  handler and states the settled state. The intermediate list that `handleDetailChange`
  appends to is replaced by that run, so no contract mentions it.
