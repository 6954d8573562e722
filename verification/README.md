# COT positioning dataset: a Dafny model of its data logic

This is a Dafny model of the in-memory data logic of a small Commitment-of-Traders
viewer and editor. The dataset (`AppData`) is an ordered list of currency-pair
entries. Each entry holds a pair name and its weekly records: date, longs, shorts,
changes, percentages, net position, net change, bias and a free-text "flip" note.
The model covers:

- the record and dataset types (`Types`);
- the built-in fallback dataset, the id fill applied to a loaded document, and the
  id strip applied on export (`DataService`);
- the admin page's lookup, delete, save and add-pair operations (`AdminView`);
- the stable newest-first sort run after each save, as a functional specification
  and as an in-place insertion sort on an array that is proved equal to it (`DateSort`);
- why sorting ISO dates as text puts them in (year, month, day) order (`IsoDate`);
- the edit form: the default record, opening the form, a single-field change, and
  the auto-calculate helper (`EditModal`);
- the pair selector's case-insensitive search and its reset on selection (`PairSelector`).

The helper modules are `Wrappers` (Option), `Text` (ASCII case mapping, substring
search, number to decimal text, digit strings and their values, the `<` order on strings) and `Sequences` (filter
and subsequence).

Modelling choices:

- Numbers are `real`, standing for JavaScript numbers without binary rounding.
  `parseFloat(x.toFixed(1))` is modelled over exact reals: round to the nearest tenth, with
  halves rounded away from zero.
- Dates are ISO `YYYY-MM-DD` strings. The sort compares them as text.
  `IsoDate.IsoTextOrderIsChronological` proves that, for well-formed dates, text
  order is the order of (year, month, day).
- A record read without an id has the empty string as its id. JavaScript's `||`
  treats a missing id and an empty id alike.
- Inputs from outside become parameters:
  - the fresh id that `Date.now()` would produce;
  - today's date;
  - the fetch outcome;
  - what `parseFloat` returns.
- The model follows the code as written:
  - The duplicate test in add-pair compares the name as typed with the stored
    names, which are upper-cased (see Findings).
  - The dataset is an ordered list, so two entries may share a name.
  - Auto-calculate computes `pct_short` from `shorts`, just as it computes
    `pct_long` from `longs`.
  - Saving to an absent pair name changes nothing.
  - Delete and save act on every entry that carries the selected name.

## Model

| member | source | states |
|---|---|---|
| Types.BiasLabel | types.ts:12 | a bias is written as exactly one of "Bullish", "Bearish", "Neutral" |
| Types.ParseBias | types.ts:12 | exactly the three labels are read as a bias, and reading inverts writing |
| Types.ParseBiasLabel | types.ts:12 | every bias survives being written and read back |
| Types.PairNames | pages/AdminView.tsx:25 | the selector's list holds every pair's name, in dataset order |
| Text.ToUpper | pages/AdminView.tsx:84 | upper-casing keeps the length and maps each character |
| Text.ToLower | components/PairSelector.tsx:15 | lower-casing keeps the length and maps each character |
| Text.Contains | components/PairSelector.tsx:15 | `includes`: a match needs a needle no longer than the text, and the empty needle always matches; ContainsAt characterises it exactly |
| Text.DecimalString | services/dataService.ts:77 | the printed index is a non-empty string of decimal digits with no leading zero ("0" for zero); DecimalStringValue gives its value |
| Text.DigitsValueSnoc | services/dataService.ts:77 | appending a digit multiplies the value by ten and adds the digit |
| Text.DecimalStringValue | services/dataService.ts:77 | the decimal text of a number is a digit string that denotes exactly that number |
| Text.LowerOfUpper | components/PairSelector.tsx:15 | lower-casing after upper-casing equals lower-casing alone |
| Text.ContainsAt | components/PairSelector.tsx:15 | `includes` holds exactly when the needle occurs at some offset |
| Text.LexLess | pages/AdminView.tsx:68 | the date comparison: a smaller string's first character is not greater, and a proper prefix is smaller; the lemmas below make it a strict total order |
| Text.LexLessTransitive | pages/AdminView.tsx:68 | the date comparison is transitive |
| Text.LexLessTrichotomy | pages/AdminView.tsx:68 | any two different dates are ordered one way or the other |
| Text.NotLessTransitive | pages/AdminView.tsx:68 | "not earlier than" is transitive, so newest-first order is a total preorder |
| Sequences.Filter | pages/AdminView.tsx:46 | the result is a subsequence of the input; it holds only accepted elements, and every accepted element of the input occurs in it |
| Sequences.FilterCounts | pages/AdminView.tsx:46 | filtering keeps every copy of an accepted element and no copy of a rejected one |
| Sequences.FilterAppend | pages/AdminView.tsx:46 | filtering distributes over concatenation, so the kept elements stay in order |
| Sequences.FilterIdempotent | pages/AdminView.tsx:46 | filtering twice with one test is filtering once |
| DataService.InitialData | services/dataService.ts:4-65 | ten pairs in the order EURUSD … EURGBP; EURUSD has 2 records, GBPUSD 1, the rest none; ids "1", "2", "3"; every record has net = longs - shorts > 0 and a Bullish bias |
| DataService.InitialNamesDistinct | services/dataService.ts:4-65 | the fallback pair names are pairwise distinct |
| DataService.InitialEurUsdNewestFirst | services/dataService.ts:5-38 | EURUSD's sample records are newest first |
| DataService.SynthesizedId | services/dataService.ts:77 | a synthesized id begins with `pair-date-`, and the rest is exactly the decimal text of the record's index: digits with no leading zero whose value is the index |
| DataService.FillRecordId | services/dataService.ts:77 | the filled record has a non-empty id and differs from the input only in id; a non-empty id is kept, an empty one becomes `pair-date-index` |
| DataService.FillPairIds | services/dataService.ts:75-78 | one pair keeps its name and record count; each record gets a non-empty id and keeps every other field |
| DataService.FillIds | services/dataService.ts:75-78 | the fill keeps the number, order and names of pairs and the record counts, and leaves every id non-empty |
| DataService.FillIdsRecords | services/dataService.ts:77 | each record keeps every field but `id`; a non-empty id is kept; an empty one becomes `pair-date-index` |
| DataService.FillIdsIdempotent | services/dataService.ts:77 | filling ids twice equals filling once |
| DataService.LoadData | services/dataService.ts:68-85 | a failed fetch yields the built-in dataset; a fetched document becomes its id fill (FillIds: same pairs, same records and fields, non-empty ids kept, empty ones synthesized), keeping its pair names, with every id non-empty |
| DataService.StripId | services/dataService.ts:91 | the exported record carries every field of the record except its id |
| DataService.StripIdForgetsOnlyId | services/dataService.ts:91 | two records export alike exactly when they differ at most in `id` |
| DataService.ExportDocument | services/dataService.ts:89-92 | export keeps the pairs, their order and their record counts, and strips only `id` from each record |
| DataService.ReadRecord | services/dataService.ts:75-77 | an exported record read back has no id, and all its other fields are as exported |
| DataService.ReadDocument | services/dataService.ts:75-77 | an exported document read back keeps its pairs and records, none with an id |
| DataService.ExportThenLoad | services/dataService.ts:75-92 | export then load gives the same pairs and records, each with the id `pair-date-index` |
| AdminView.InitialSelection | pages/AdminView.tsx:15 | the first pair's name is selected, or "EURUSD" when that is missing or empty |
| AdminView.SelectedRecords | pages/AdminView.tsx:21-23 | the records of the first pair with the selected name, or none if no pair has it |
| AdminView.RemoveId | pages/AdminView.tsx:46 | the result is a subsequence that keeps every copy of each record whose id differs and none of the others |
| AdminView.RemoveAbsentId | pages/AdminView.tsx:42-50 | removing an id that no record has changes nothing |
| AdminView.DeleteRecord | pages/AdminView.tsx:39-51 | delete keeps the number, order and names of pairs and the other pairs' records; the selected pair loses exactly that id |
| AdminView.DeleteAbsentIdUnchanged | pages/AdminView.tsx:42-50 | deleting an absent id leaves the dataset unchanged |
| AdminView.DeleteIdempotent | pages/AdminView.tsx:42-50 | deleting an id twice equals deleting it once |
| AdminView.DeleteThenLookup | pages/AdminView.tsx:21-51 | after a delete, the shown records are the previously shown ones minus that id |
| AdminView.ReplaceById | pages/AdminView.tsx:60 | the replace-by-id map keeps the length; Upsert's contract and ReplaceFilter give what it does to each record |
| AdminView.Upsert | pages/AdminView.tsx:56-64 | a new id puts the saved record (under the fresh id if its own is empty) in front of the old list; a present id replaces every record carrying it, in place, and leaves every other record where it was |
| AdminView.UpsertKeepsOthers | pages/AdminView.tsx:56-64 | records with any other id are kept, in the same order |
| AdminView.ReplaceFilter | pages/AdminView.tsx:60 | the records without the replaced id are the same before and after the replacement |
| AdminView.ReplaceKeepsOthers | pages/AdminView.tsx:60 | replacement by id does not disturb records with other ids |
| AdminView.SaveInPair | pages/AdminView.tsx:55-70 | the saved list of one pair has the old count for a present id and one more for a new id; SaveSortsAndPermutes and SaveNewFirstOnItsDate give its order and content |
| AdminView.SaveNewFirstOnItsDate | pages/AdminView.tsx:64-68 | a record saved under a new id comes first among the records of its date, ahead of those already there |
| AdminView.SavePairRecords | pages/AdminView.tsx:56-70 | building the list and sorting the array in place yields the specified saved list |
| AdminView.SaveSortsAndPermutes | pages/AdminView.tsx:56-68 | after a save the list is newest first, is a permutation of the upserted list, has the stated count, and holds the saved record |
| AdminView.SaveThenDelete | pages/AdminView.tsx:42-73 | deleting the saved id after a save gives the other records, sorted |
| AdminView.SaveNewThenDeleteRestores | pages/AdminView.tsx:42-73 | on a newest-first list, saving under a new id and then deleting it restores the list |
| AdminView.SaveRecord | pages/AdminView.tsx:53-75 | save keeps the number, order and names of pairs and the other pairs' records |
| AdminView.SaveThenLookup | pages/AdminView.tsx:21-75 | after a save, the shown records are the shown list with the save applied |
| AdminView.AddPair | pages/AdminView.tsx:77-88 | an empty name is ignored; a name equal as typed to an existing pair is rejected; otherwise the upper-cased name is appended with no records and selected |
| AdminView.AddPairCaseDuplicate | pages/AdminView.tsx:80-84 | a name absent as typed but present upper-cased is added, leaves two entries with one name, and is then rejected in upper case |
| AdminView.AddPairAdmitsCaseDuplicate | pages/AdminView.tsx:80-84 | on the fallback dataset, "eurjpy" is added as a second EURJPY entry, and "EURJPY" is then rejected |
| AdminView.AddPairNormalized | pages/AdminView.tsx:79-85 | as AddPair, but the duplicate test uses the upper-cased name |
| AdminView.AddPairNormalizedKeepsNamesDistinct | pages/AdminView.tsx:79-85 | the corrected add keeps pair names distinct, and the new pair shows no records |
| DateSort.InsertByDate | pages/AdminView.tsx:68 | one insertion step adds one record; InsertPermutes, InsertKeepsNewestFirst and InsertLands fix its content and place |
| DateSort.SortNewestFirst | pages/AdminView.tsx:68 | the sort keeps the length; SortPermutes, SortIsNewestFirst and SortIsStable pin its output down |
| DateSort.InsertPermutes | pages/AdminView.tsx:68 | one insertion step adds exactly the inserted record |
| DateSort.SortPermutes | pages/AdminView.tsx:68 | the sort is a permutation of its input |
| DateSort.InsertKeepsNewestFirst | pages/AdminView.tsx:68 | inserting into a newest-first list keeps it newest first |
| DateSort.SortIsNewestFirst | pages/AdminView.tsx:68 | the sort's output is in non-increasing date order |
| DateSort.SortOfNewestFirst | pages/AdminView.tsx:68 | a list that is already newest first is left unchanged |
| DateSort.FilterInsert | pages/AdminView.tsx:68 | filtering commutes with one insertion step into a newest-first list |
| DateSort.FilterSort | pages/AdminView.tsx:68 | filtering the sorted list equals sorting the filtered list |
| DateSort.SortIsStable | pages/AdminView.tsx:68 | records with the same date keep their relative order |
| DateSort.NewestFirstIsChronological | pages/AdminView.tsx:68 | for ISO dates, newest first by text means no record is followed by a later calendar day |
| DateSort.ShiftPastEarlier | pages/AdminView.tsx:68 | the inner loop shifts exactly the trailing records earlier than the inserted one a place right, stopping at the first that is not earlier |
| DateSort.InsertLands | pages/AdminView.tsx:68 | the record lands just after the last record not earlier than it, with every later record one place right |
| DateSort.InsertAt | pages/AdminView.tsx:68 | one insertion step puts an array element into the sorted prefix, as the functional insertion does, and leaves the rest alone |
| DateSort.SortByDateInPlace | pages/AdminView.tsx:68 | the in-place array sort leaves exactly the specified newest-first stable order |
| IsoDate.DigitsOrder | pages/AdminView.tsx:68 | on digit strings of equal length, text order is numeric order |
| IsoDate.IsoTextOrderIsChronological | pages/AdminView.tsx:68 | on `YYYY-MM-DD` dates, text order is (year, month, day) order; whether month and day name a real calendar day is not checked |
| EditModal.DefaultRecord | components/EditModal.tsx:13-25 | the blank record has all eight numbers 0, bias Neutral, flip "" and today's date |
| EditModal.OpenForm | components/EditModal.tsx:30-38 | the form copies the record being edited, or holds the blank record under a fresh id |
| EditModal.ParsedOrZero | components/EditModal.tsx:48 | a parsed number is kept; NaN becomes 0 |
| EditModal.HandleChange | components/EditModal.tsx:42-50 | exactly the named field changes: a numeric field gets the parsed number or 0, text fields get the raw value, the bias gets the selected label |
| EditModal.RoundTenths | components/EditModal.tsx:61-62 | the result is a whole number of tenths within 0.05 of the input |
| EditModal.SharesSumTo100 | components/EditModal.tsx:55-56 | with a positive total, the two unrounded percentages add up to 100 |
| EditModal.BiasOf | components/EditModal.tsx:64 | Bullish exactly for net > 0, Bearish exactly for net < 0, Neutral exactly for net = 0 |
| EditModal.AutoCalculate | components/EditModal.tsx:53-66 | net = longs - shorts; the bias follows the sign of net; both percentages are 0 when the total is not positive, otherwise the rounded shares; no other field changes |
| EditModal.AutoCalculateKeepsOtherFields | components/EditModal.tsx:59-65 | id, date, longs, shorts, both changes, net change and flip are unchanged |
| EditModal.RoundedSharesNear100 | components/EditModal.tsx:55-62 | after rounding, the percentages add up to within 0.1 of 100 |
| EditModal.AutoCalculateIdempotent | components/EditModal.tsx:53-66 | pressing auto-calculate twice equals pressing it once |
| EditModal.AutoCalculateSampleWeek | components/EditModal.tsx:53-66 | longs 210450 and shorts 115300 give 64.6 %, 35.4 %, net 95150 and a Bullish bias |
| EditModal.AutoCalculateEmptyWeek | components/EditModal.tsx:54-57 | zero longs and shorts give 0 %, 0 %, net 0 and a Neutral bias |
| PairSelector.FilterPairs | components/PairSelector.tsx:14-16 | the listed pairs are a subsequence of the input; every copy of a pair that contains the search text, ignoring case, is listed, and no copy of any other pair |
| PairSelector.EmptySearchKeepsAll | components/PairSelector.tsx:15 | an empty search lists every pair |
| PairSelector.SearchIgnoresCase | components/PairSelector.tsx:15 | searches that differ only in case list the same pairs |
| PairSelector.UpperCaseSearch | components/PairSelector.tsx:15 | an upper-cased search lists the same pairs as the original |
| PairSelector.HandleSelect | components/PairSelector.tsx:18-22 | selecting reports the pair, closes the list and clears the search |
| PairSelector.SelectResetsFilter | components/PairSelector.tsx:18-22 | after a selection, the list shows every pair again |

## Left out

- The fetch of the data document, `response.json()`, JSON serialisation, `encodeURIComponent` and the download link (services/dataService.ts:71-73, 94-100). They are browser I/O. The fetch outcome is a parameter, and the model ends at the structured values on either side.
- `console.warn` on load failure, `window.confirm` before a delete and `alert` on a duplicate pair. These are interactive. The duplicate alert is the `Duplicate` result of `AddPair`.
- `Date.now()` ids and `new Date()` for today's date. They are nondeterministic and become the `freshId` and `today` parameters.
- `new Date(...)` parsing of malformed dates, which yields NaN and an inconsistent comparator. Dates are compared as text, which matches (year, month, day) order for well-formed ISO dates; month and day ranges are not checked.
- Text.ToUpper: maps only the ASCII letters a-z. JavaScript's `toUpperCase` also maps other Unicode letters.
- Text.ToLower: maps only the ASCII letters A-Z, for the same reason.
- EditModal.RoundTenths: exact decimal rounding. `toFixed` rounds the binary double and switches to exponent notation above 1e21, and neither is modelled.
- EditModal.ParsedOrZero: `parseFloat` itself is not modelled. Its result is a parameter, with None standing for NaN.
- Floating-point arithmetic in general. All numbers are exact reals.
- EditModal.HandleChange: the bias select offers only the three labels, so the model requires the value to be one of them. An input name outside the form's fields is not modelled.
- React state plumbing: `useMemo`, `useEffect`, modal open/close, `setNewPairName('')` and `setShowAddPair(false)` after adding a pair. Each modelled operation is the value passed to the state setter.
- Rendering, routing and styling. This covers components/CotTable.tsx, pages/PublicView.tsx and App.tsx with its placeholder admin gate.

## Findings

| source | as written | input that shows it | evidently intended | confidence | as-written member | corrected member |
|---|---|---|---|---|---|---|
| pages/AdminView.tsx:80-84 | the duplicate test compares the name as typed with existing names, but the name is stored upper-cased | adding "eurjpy" to the fallback dataset appends a second "EURJPY" entry | pair names stay unique: compare the upper-cased name | not executed; proved for this input | AdminView.AddPairAdmitsCaseDuplicate | AdminView.AddPairNormalizedKeepsNamesDistinct |
