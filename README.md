# Subway check-in log — a verified model

The application is a browser app for logging subway check-ins. A user
registers trains by serial number and records a check-in (train, platform
1 or 10, time, notes, optional photo) each time they work on one. They
browse the history in a list or a month calendar, and move the data
between devices as JSON text. Everything is kept in one IndexedDB
database, `subway-tracker-db`, version 1. It has three object stores:

- `trains`, keyed by `id`, with a `by-createdAt` index;
- `checkins`, keyed by `id`, with `by-timestamp` and `by-trainId` indexes;
- `photos`, keyed by `id`, with a `by-checkinId` index.

This project models that core in Dafny and proves what it promises.

- **`IdbOrder`** (`idb_order.dfy`) models IndexedDB key order: numbers
  below strings, strings lexicographically. An index scan is a pure function of
  the store, ordered by (index key, primary key). `IDBKeyRange.only` is a
  restriction of the store. `getAllCheckins` reverses the ascending
  `by-timestamp` scan with `Array.prototype.reverse`; it opens no cursor.
- **`IndexedDbClient`** (`indexed_db_client.dfy`) models the data-access
  layer as two classes:
  - `Database`: the persisted stores, schema and version;
  - `Client`: the cached `dbInstance` and the twelve store operations.

  Each method states the exact new contents of all three stores. The read
  operations are tied to scan functions whose membership and order are
  proved. For example, `getAllCheckins` is newest first, and ties are
  broken by descending id.
- **`ExportImport`** (`export_import.dfy`) models the export format as an
  abstract JSON value. It covers:
  - the encoder and decoder of trains and check-ins;
  - `exportCheckinsToText`, which drops `photoKey`;
  - `parseImportText`, with its three format checks;
  - the readable report, written as the loop it is in the source.

  Proved: export followed by parse gives back the trains, and the
  check-ins without `photoKey`. The report's count line equals its number
  of `[n]` blocks. The report is modelled as its list of line entries.
- **`CivilDate`** (`civil_date.dfy`) models JavaScript `Date` calendar
  arithmetic on day numbers since 1970-01-01: `MakeDay`, the weekday, and
  the month of a day. Local time is UTC plus a fixed offset.
- **`CalendarView`** (`calendar_view.dfy`) models the month grid builder:
  - grouping check-ins by day key;
  - the Sunday-to-Saturday bounds;
  - the week loop.

  Proved: the grid has 4 to 6 whole weeks and covers the month. A cell is
  "current month" exactly when its day lies in the month. A cell shows
  exactly that day's check-ins.
- **`HistoryPage`**, **`CheckinPage`**, **`TrainsPage`** (`history_page.dfy`,
  `checkin_page.dfy`, `trains_page.dfy`) model the page handlers that
  write to or read from the stores:
  - import merge, delete, the load-and-join and the train filter;
  - the numeric train sort, the default selection and check-in submission;
  - adding and deleting a train.

  Each handler is a method proved against a function of the old stores.
  Lemmas state the guards, the counts and the re-import idempotence.

Inputs the code reads from its environment are parameters of the model:

- the clock (`now`, `clock`);
- the local UTC offset;
- `generateId` results;
- `confirm` answers;
- the `JSON.parse` reading of the text;
- `toLocaleString` / `formatDate` renderings of a date.

## Model

| member | source | states |
|---|---|---|
| JsText.Trim | src/features/history/HistoryPage.tsx:145 | the result is the input with the longest leading and trailing runs of JS white space removed; it is empty iff the input is all white space, and otherwise begins and ends with a non-space |
| JsText.TrimIdempotent | src/features/trains/TrainsPage.tsx:21 | trimming a trimmed string changes nothing |
| JsText.ParseDecimal | src/features/checkin/CheckinPage.tsx:24-25 | `parseInt` of a string of decimal digits is the number those digits denote |
| IdbOrder.EntryOrder | src/db/indexedDbClient.ts:81-90 | (index key, primary key) order, in which IndexedDB visits index entries, is a strict total order |
| IdbOrder.ScanKeys | src/db/indexedDbClient.ts:65-68 | a scan visits every record of the store exactly once, in strictly increasing (index key, primary key) order |
| IdbOrder.RecordsAt | src/db/indexedDbClient.ts:65-68 | the records a scan returns are the stored records at the visited keys, in visiting order |
| IdbOrder.Only | src/db/indexedDbClient.ts:89 | `IDBKeyRange.only(q)` keeps exactly the records whose index key is `q`, unchanged |
| IdbOrder.Reverse | src/db/indexedDbClient.ts:84 | `Array.prototype.reverse` of the scan result puts element i at position n-1-i |
| IdbOrder.ScanPair | src/db/indexedDbClient.ts:65-68 | of two records of a scan, the earlier one is below the later one in (index key, primary key) order |
| IdbOrder.NumEntryBelow | src/db/indexedDbClient.ts:83 | between numeric index keys, entry order is by number, then by primary key |
| IndexedDbClient.ScanHasAll | src/db/indexedDbClient.ts:65-68 | every stored record occurs in every index scan |
| IndexedDbClient.AllTrains | src/db/indexedDbClient.ts:65-68 | `getAll` on trains returns each stored train once, in ascending id order |
| IndexedDbClient.TrainScan | src/db/indexedDbClient.ts:65-68 | the store listing of trains holds each stored train once, under its id, in ascending id order |
| IndexedDbClient.TimestampScanOrder | src/db/indexedDbClient.ts:83 | the `timestamp` index scan is ascending by timestamp, with ties in ascending id |
| IndexedDbClient.TimestampPair | src/db/indexedDbClient.ts:83 | of two check-ins of the `timestamp` index scan, the earlier has the smaller timestamp, or the same timestamp and the smaller id |
| IndexedDbClient.CheckinScanMembers | src/db/indexedDbClient.ts:81-90 | any check-in index scan returns exactly the stored check-ins, each once |
| IndexedDbClient.ReverseAscending | src/db/indexedDbClient.ts:84 | reversing an ascending check-in sequence gives a newest-first one |
| IndexedDbClient.ReverseLists | src/db/indexedDbClient.ts:84 | reversing a listing of the stored check-ins keeps exactly the stored check-ins, each once |
| IndexedDbClient.NewestFirstMembers | src/db/indexedDbClient.ts:81-85 | the reversed timestamp scan holds exactly the stored check-ins |
| IndexedDbClient.NewestFirst | src/db/indexedDbClient.ts:81-85 | `getAllCheckins` returns each stored check-in once, timestamps non-increasing, equal timestamps in descending id |
| IndexedDbClient.SameKeyScanOrder | src/db/indexedDbClient.ts:89 | when all records share one index key, the scan is in primary-key order |
| IndexedDbClient.FirstOfKey | src/db/indexedDbClient.ts:113-117 | the scan restricted to one index key is empty iff no record has that key, and otherwise starts with the least primary key among them |
| IndexedDbClient.TrainScanContents | src/db/indexedDbClient.ts:87-90 | the `trainId` index scan restricted to one train returns exactly that train's stored check-ins, in id order |
| IndexedDbClient.CheckinsOfTrain | src/db/indexedDbClient.ts:87-90 | `getCheckinsByTrainId` returns exactly the stored check-ins of that train, in ascending id order |
| IndexedDbClient.PhotoOfCheckin | src/db/indexedDbClient.ts:113-117 | the `checkinId` index `get` finds nothing iff no stored photo belongs to the check-in, otherwise the stored photo of that check-in with the least id |
| IndexedDbClient.Database.constructor | src/db/indexedDbClient.ts:30-33 | a database that has never been opened has version 0, no object stores and no records |
| IndexedDbClient.Database.Upgrade | src/db/indexedDbClient.ts:34-53 | the upgrade creates the three stores that are missing and leaves every record as it was |
| IndexedDbClient.Client.constructor | src/db/indexedDbClient.ts:27 | the client starts with no cached connection |
| IndexedDbClient.Client.InitDB | src/db/indexedDbClient.ts:30-57 | after `initDB` the connection is open at version 1 with all three stores; a cached connection is returned as is; no record changes |
| IndexedDbClient.Client.AddTrain | src/db/indexedDbClient.ts:60-63 | `add` succeeds iff the id is new; on success exactly that train is added, otherwise nothing changes |
| IndexedDbClient.Client.GetAllTrains | src/db/indexedDbClient.ts:65-68 | returns the trains in key order and changes nothing |
| IndexedDbClient.Client.DeleteTrain | src/db/indexedDbClient.ts:70-73 | removes that train, if present, and nothing else; check-ins of the train stay |
| IndexedDbClient.Client.AddCheckin | src/db/indexedDbClient.ts:76-79 | `add` succeeds iff the id is new; on success exactly that check-in is added, otherwise nothing changes |
| IndexedDbClient.Client.GetAllCheckins | src/db/indexedDbClient.ts:81-85 | returns the check-ins newest first and changes nothing |
| IndexedDbClient.Client.GetCheckinsByTrainId | src/db/indexedDbClient.ts:87-90 | returns that train's check-ins and changes nothing |
| IndexedDbClient.Client.UpdateCheckin | src/db/indexedDbClient.ts:92-95 | `put` stores the check-in under its id, inserting or replacing, and changes nothing else |
| IndexedDbClient.Client.DeleteCheckin | src/db/indexedDbClient.ts:97-100 | removes that check-in, if present, and nothing else; its photos stay |
| IndexedDbClient.Client.AddPhoto | src/db/indexedDbClient.ts:103-106 | `add` succeeds iff the id is new; on success exactly that photo is added, otherwise nothing changes |
| IndexedDbClient.Client.GetPhotoById | src/db/indexedDbClient.ts:108-111 | returns the stored photo under the id, or nothing iff there is none; changes nothing |
| IndexedDbClient.Client.GetPhotoByCheckinId | src/db/indexedDbClient.ts:113-117 | returns the first photo of that check-in in index order, or nothing; changes nothing |
| IndexedDbClient.Client.DeletePhoto | src/db/indexedDbClient.ts:119-122 | removes that photo, if present, and nothing else |
| ExportImport.EncodeStrs | src/utils/exportImport.ts:16-23 | an array of strings is encoded element by element |
| ExportImport.StrsOfEncode | src/utils/exportImport.ts:16-23 | decoding an encoded string array gives the array back |
| ExportImport.DecodeEncodeTrain | src/utils/exportImport.ts:16-23 | decoding an exported train gives the train back |
| ExportImport.EncodedStrFields | src/utils/exportImport.ts:16-23 | an exported check-in carries `id`, `trainId` and `notes` as strings with the record's values |
| ExportImport.EncodedNumFields | src/utils/exportImport.ts:16-23 | an exported check-in carries `platform`, `timestamp` and `createdAt` as numbers with the record's values |
| ExportImport.EncodedOptionalFields | src/utils/exportImport.ts:16-23 | an optional field is present in an exported check-in iff it is set in the record |
| ExportImport.DecodeEncodeCheckin | src/utils/exportImport.ts:16-23 | decoding an exported check-in gives the check-in back |
| ExportImport.WithoutPhotoKeyEncode | src/utils/exportImport.ts:14 | removing `photoKey` from an encoded check-in is encoding the check-in with `photoKey` unset |
| ExportImport.ExportCheckinsToText | src/utils/exportImport.ts:12-24 | the export is an object of exactly `version` "1.0", `exportDate` (the clock), `trains` and `checkins`, with one array element per input record |
| ExportImport.ExportedRecords | src/utils/exportImport.ts:14-21 | element i of `trains` is train i encoded; element i of `checkins` is check-in i encoded without `photoKey` |
| ExportImport.ParseImportText | src/utils/exportImport.ts:27-41 | the parse succeeds iff the text is JSON whose `version` is truthy and whose `trains` and `checkins` are arrays, and then returns that document |
| ExportImport.ExportParseRoundTrip | src/utils/exportImport.ts:12-41 | parsing an export succeeds and decodes to the same trains, and to the same check-ins without `photoKey` |
| ExportImport.NatToString | src/utils/exportImport.ts:92 | the decimal rendering of a count is a digit string denoting that count |
| ExportImport.NatToStringParses | src/utils/exportImport.ts:92 | `parseInt` reads a rendered count back as the count |
| ExportImport.TrainIdMap | src/utils/exportImport.ts:88 | the train map has exactly the train ids as keys, each mapped to itself |
| ExportImport.TrainLabelIsTrainId | src/utils/exportImport.ts:96 | since the map sends ids to themselves, the label shown for a check-in is always its own `trainId` |
| ExportImport.NotesLineIffNotes | src/utils/exportImport.ts:99-105 | a block has a notes line iff the notes are non-empty; it has 5 lines then, 4 otherwise |
| ExportImport.Blocks | src/utils/exportImport.ts:95-106 | there is one block per check-in, in input order, numbered from 1 |
| ExportImport.ConcatSnoc | src/utils/exportImport.ts:95-106 | appending one more piece appends its text |
| ExportImport.ConcatAppend | src/utils/exportImport.ts:87-109 | the text of two line lists is the text of the first followed by that of the second |
| ExportImport.AppendBlock | src/utils/exportImport.ts:99-105 | the text appended for one check-in is its block's lines in order |
| ExportImport.BlockText | src/utils/exportImport.ts:99-105 | the text of a block is its number, train, platform, optional notes and blank lines, concatenated in order |
| ExportImport.Header | src/utils/exportImport.ts:90-93 | the header text is the title, date, count and rule lines in order |
| ExportImport.ExportCheckinsToReadableText | src/utils/exportImport.ts:87-109 | the report is the header followed by every check-in's block, in input order |
| ExportImport.CountOpeningAppend | src/utils/exportImport.ts:95-106 | line entries opening with a given character add up over concatenation of the entry lists |
| ExportImport.BlockOpensOnce | src/utils/exportImport.ts:99-105 | each block has exactly one line entry opening with `[` |
| ExportImport.HeaderOpensNone | src/utils/exportImport.ts:90-93 | no header line entry opens with `[` |
| ExportImport.BlocksOpen | src/utils/exportImport.ts:95-106 | the first k blocks have exactly k line entries opening with `[` |
| ExportImport.ReportCountMatchesBlocks | src/utils/exportImport.ts:92-106 | the count line states the number of check-ins, which is the number of line entries of the report opening with `[`, one per block |
| CivilDate.Weekday | src/components/CalendarView.tsx:25 | `getDay` is in 0..6 and 1970-01-01 was a Thursday (4) |
| CivilDate.YearLength | src/components/CalendarView.tsx:20-21 | a year has 366 days if it is a Gregorian leap year, 365 otherwise |
| CivilDate.MonthLength | src/components/CalendarView.tsx:21 | a month has 28 to 31 days, and 28 exactly for February of a common year |
| CivilDate.MonthStartMonotone | src/components/CalendarView.tsx:20-21 | month starts advance by at least 28 days per month |
| CivilDate.MonthsOrdered | src/components/CalendarView.tsx:20-21 | an earlier month ends no later than a later one starts |
| CivilDate.MonthOfYear | src/components/CalendarView.tsx:20-21 | month k of a year starts its length after month k-1 |
| CivilDate.YearOfMonths | src/components/CalendarView.tsx:20-21 | the twelve months of a year span the year's length |
| CivilDate.YearStartsAgree | src/components/CalendarView.tsx:20 | the day of January 1 counted month by month equals the year-day formula of ECMAScript |
| CivilDate.MonthIndexOf | src/components/CalendarView.tsx:51 | every day falls in a month: its start is at or before the day, the next start after |
| CivilDate.MonthIndexUnique | src/components/CalendarView.tsx:51 | that month is unique |
| CivilDate.MonthOf | src/components/CalendarView.tsx:51 | `getMonth` is in 0..11 |
| CivilDate.LocalTimeOfDay | src/features/checkin/CheckinPage.tsx:58-59 | a local time splits into a local day and a time of day in [0, 24h) |
| CivilDate.LocalTimeDay | src/features/checkin/CheckinPage.tsx:59-60 | a local day and a time of day within it give back that day and time |
| CalendarView.OnKey | src/components/CalendarView.tsx:32-39 | the check-ins filed under a key are exactly those whose day key is that key |
| CalendarView.KeyIndices | src/components/CalendarView.tsx:32-39 | the positions of the check-ins filed under a key, ascending and complete |
| CalendarView.OnKeyInOrder | src/components/CalendarView.tsx:32-39 | a key's list is the input at those positions, in input order, each check-in once |
| CalendarView.PickSnoc | src/components/CalendarView.tsx:36-38 | one more `push` extends the picked list and its positions by the new check-in exactly when it is picked |
| CalendarView.OnKeyStep | src/components/CalendarView.tsx:36-38 | the list and positions of a key grow by the last check-in exactly when it is filed under the key |
| CalendarView.OnDay | src/components/CalendarView.tsx:52 | the check-ins of a day are exactly those whose local day it is |
| CalendarView.OnKeyIsOnDay | src/components/CalendarView.tsx:34-52 | when day keys name days one to one, filing by key is filing by day |
| CalendarView.OnKeySnoc | src/components/CalendarView.tsx:38 | pushing one more check-in extends its own key's list and no other |
| CalendarView.GroupStep | src/components/CalendarView.tsx:33-39 | one step of the grouping loop keeps the map equal to the filing of the check-ins seen so far |
| CalendarView.GroupByDate | src/components/CalendarView.tsx:32-39 | the map has a key iff some check-in falls under it, and lists exactly those check-ins in order |
| CalendarView.BuildWeek | src/components/CalendarView.tsx:46-62 | a week is seven consecutive cells from its start |
| CalendarView.BuildWeeks | src/components/CalendarView.tsx:43-65 | the loop yields whole weeks covering start..end, cell by cell |
| CalendarView.WeeksStep | src/components/CalendarView.tsx:45-65 | appending the week that starts right after the weeks built so far keeps them whole weeks from the grid start |
| CalendarView.BuildCalendar | src/components/CalendarView.tsx:15-68 | the grid is whole weeks from the Sunday on or before the 1st to the Saturday on or after the last day, each cell that day's cell |
| CalendarView.WeekArithmetic | src/components/CalendarView.tsx:24-29 | stepping back `getDay` days reaches a Sunday, stepping forward `6 - getDay` reaches a Saturday, and the span between them is whole weeks |
| CalendarView.MonthEnds | src/components/CalendarView.tsx:20-21 | `new Date(year, month, 1)` and `new Date(year, month + 1, 0)` are the first and last days of the month |
| CalendarView.GridBounds | src/components/CalendarView.tsx:20-29 | the grid starts on a Sunday in the week of the 1st and ends on a Saturday in the week of the last day |
| CalendarView.NeighbourMonths | src/components/CalendarView.tsx:51 | the months before and after have other month numbers |
| CalendarView.MonthOfNear | src/components/CalendarView.tsx:51 | a day within a week of month mi has the month number of mi iff it lies in month mi |
| CalendarView.CurrentMonthIff | src/components/CalendarView.tsx:51 | a grid cell is marked current-month iff its day lies between the first and last day of the month |
| CalendarView.MonthCovered | src/components/CalendarView.tsx:45-65 | every day of the month has a cell in the grid |
| CalendarView.GridWeeksRange | src/components/CalendarView.tsx:24-65 | the grid has 4 to 6 weeks, and 4 iff the month has 28 days and starts on a Sunday |
| CalendarView.CellCheckins | src/components/CalendarView.tsx:52 | with one-to-one day keys, a cell lists exactly the check-ins of its day |
| HistoryPage.AdmissibleStep | src/features/history/HistoryPage.tsx:166-179 | whether an import can succeed unfolds over its first element |
| HistoryPage.MergeOkIff | src/features/history/HistoryPage.tsx:166-179 | the import loop succeeds iff every element decodes, and no element whose id is not in the page's list hits an id in the store or an earlier element |
| HistoryPage.MergeKeeps | src/features/history/HistoryPage.tsx:166-179 | the loop never changes or removes a stored record, and keeps records under their ids |
| HistoryPage.MergeCount | src/features/history/HistoryPage.tsx:162-179 | the store grows by exactly the reported count |
| HistoryPage.MergeInsertsNew | src/features/history/HistoryPage.tsx:166-179 | every record the loop adds is an imported element whose id the page did not list |
| HistoryPage.MergeAllKnown | src/features/history/HistoryPage.tsx:167 | when the page already lists every imported id, the loop adds nothing |
| HistoryPage.MergeCovers | src/features/history/HistoryPage.tsx:166-179 | after a successful loop every imported element's id is stored |
| HistoryPage.MergeReimport | src/features/history/HistoryPage.tsx:159-182 | running the loop again, with the store's ids as the page's list, adds nothing |
| HistoryPage.InsertTrains | src/features/history/HistoryPage.tsx:166-171 | the train loop changes the train store as the merge function says, and stops at the first failed add |
| HistoryPage.InsertCheckins | src/features/history/HistoryPage.tsx:174-179 | the check-in loop adds each new check-in without `photoKey`, as the merge function says |
| HistoryPage.HandleImport | src/features/history/HistoryPage.tsx:144-190 | `handleImport` changes the stores and reports the outcome as `Import` says; it reloads both lists only after success |
| HistoryPage.WithTrainNumbers | src/features/history/HistoryPage.tsx:50-53 | the join keeps one row per check-in |
| HistoryPage.JoinKeepsIds | src/features/history/HistoryPage.tsx:50-53 | the join keeps the check-in ids, in order |
| HistoryPage.LoadData | src/features/history/HistoryPage.tsx:38-62 | `loadData` changes nothing and shows the trains in key order, and the check-ins newest first joined with their train numbers |
| HistoryPage.HandleDelete | src/features/history/HistoryPage.tsx:76-94 | once confirmed, deletes the photo under `photoKey` (if set) and the check-in, then reloads; otherwise changes nothing |
| HistoryPage.FilterByTrain | src/features/history/HistoryPage.tsx:192-194 | the filter keeps exactly the check-ins of the train |
| HistoryPage.MatchingIndices | src/features/history/HistoryPage.tsx:193 | the positions of a train's check-ins, increasing, complete |
| HistoryPage.FilterKeepsOrder | src/features/history/HistoryPage.tsx:193 | the filtered list is the matching check-ins in their original order |
| HistoryPage.FilteredCheckinsShown | src/features/history/HistoryPage.tsx:192-194 | an empty filter shows everything, otherwise the matching check-ins in order |
| HistoryPage.TrainJoin | src/features/history/HistoryPage.tsx:47-53 | each row is the check-in with `trainNumber` set iff its train is listed, and then to the train id |
| HistoryPage.ImportRejects | src/features/history/HistoryPage.tsx:145-155 | blank text and text that fails the format check change nothing |
| HistoryPage.ImportKeeps | src/features/history/HistoryPage.tsx:157-189 | no import removes or alters a stored train or check-in, and every record stays under its own id |
| HistoryPage.ImportCounts | src/features/history/HistoryPage.tsx:162-185 | after a successful import the stores have grown by exactly the reported counts |
| HistoryPage.ImportedCheckinsStripped | src/features/history/HistoryPage.tsx:174-179 | every check-in an import adds came from the text, was not listed, and has no `photoKey` |
| HistoryPage.ImportDuplicateTrainFails | src/features/history/HistoryPage.tsx:166-171 | an unlisted train id that is already stored makes the import fail |
| HistoryPage.ReloadedTrainIds | src/features/history/HistoryPage.tsx:159 | the ids of the reloaded train list are the stored ids |
| HistoryPage.ReloadedCheckinIds | src/features/history/HistoryPage.tsx:160 | the ids of the reloaded check-in list are the stored ids |
| HistoryPage.ReimportStores | src/features/history/HistoryPage.tsx:159-182 | importing the same text again after a success adds nothing to either store |
| HistoryPage.Reimport | src/features/history/HistoryPage.tsx:144-190 | a second import of the same text, from the reloaded lists, succeeds, adds zero trains and zero check-ins, and leaves the stores as they are |
| CheckinPage.InsertStart | src/features/checkin/CheckinPage.tsx:23-27 | inserting element i into a sorted prefix begins in the insertion state |
| CheckinPage.InsertSwap | src/features/checkin/CheckinPage.tsx:23-27 | swapping an out-of-order neighbour keeps the insertion state and the elements |
| CheckinPage.InsertDone | src/features/checkin/CheckinPage.tsx:23-27 | when no swap is due, the prefix one longer is sorted |
| CheckinPage.InsertAt | src/features/checkin/CheckinPage.tsx:23-27 | one insertion step permutes the array and extends the sorted prefix |
| CheckinPage.Swap | src/features/checkin/CheckinPage.tsx:23-27 | exchanging two neighbours changes only those two places and keeps the elements |
| CheckinPage.SortBy | src/features/checkin/CheckinPage.tsx:23-27 | the sort permutes the array, and orders it by the numeric key whenever every key parses |
| CheckinPage.SortByNumber | src/features/checkin/CheckinPage.tsx:23-27 | the sorted list has the same trains, in ascending order of their numbers whenever every id parses |
| CheckinPage.NumericOrder | src/features/checkin/CheckinPage.tsx:23-27 | when every train id is a digit string, every key parses and sorted means by the ids' numeric values |
| CheckinPage.FirstIsSmallest | src/features/checkin/CheckinPage.tsx:29-31 | the default train, the first after sorting, has the smallest number |
| CheckinPage.LoadTrains | src/features/checkin/CheckinPage.tsx:20-32 | the list is a permutation of the stored trains, numerically sorted when all ids parse; an empty selection defaults to the first train |
| CheckinPage.ClockSeconds | src/features/checkin/CheckinPage.tsx:58-59 | hours, minutes and seconds of the clock give a whole-second time of day at most one second below the clock's local time of day |
| CheckinPage.ClockParts | src/features/checkin/CheckinPage.tsx:59 | hours, minutes and seconds recombine to the time of day truncated to the second |
| CheckinPage.SubmittedTimestampDay | src/features/checkin/CheckinPage.tsx:57-60 | the corrected timestamp lies on the selected local day at the clock's time to the second |
| CheckinPage.AsWrittenWestOfUtc | src/features/checkin/CheckinPage.tsx:57-60 | west of UTC, the code as written files the check-in on the day before the selected one |
| CheckinPage.AsWrittenNewYorkWinter | src/features/checkin/CheckinPage.tsx:57-60 | at UTC-5, selecting 2024-01-01 stores a time on 2023-12-31 |
| CheckinPage.AsWrittenEastOfUtc | src/features/checkin/CheckinPage.tsx:57-60 | at or east of UTC, with a whole-second offset, the code as written agrees with the corrected one |
| CheckinPage.AsWrittenDay | src/features/checkin/CheckinPage.tsx:57-60 | the timestamp as the code computes it lies on the local day of UTC midnight of the selected date, at the clock's whole seconds plus that midnight's local milliseconds: the selected day at or east of UTC, the day before west of it |
| CheckinPage.HandleSubmit | src/features/checkin/CheckinPage.tsx:34-102 | `handleSubmit` changes the check-in and photo stores as `Submit` says, with the timestamp computed as the code does, and never the trains |
| CheckinPage.SubmitGuards | src/features/checkin/CheckinPage.tsx:37-48 | the outcome is "no train" iff nothing is selected, and "unknown train" iff the selection is not a loaded train, which clears the selection; neither, nor a failed check-in write, writes anything |
| CheckinPage.SubmitCheckin | src/features/checkin/CheckinPage.tsx:63-74 | a submission that stores its check-in adds exactly that one record under a new id: the selected train, platform and notes, created now, with a `photoKey` iff a photo is attached, on the local day of UTC midnight of the selected date (the selected day at or east of UTC, the day before west of it); it stays even when the photo write fails |
| CheckinPage.SubmitPhoto | src/features/checkin/CheckinPage.tsx:69-90 | the photo store changes only after the check-in was stored; a successful submission with a photo stores it under the check-in's `photoKey`, pointing to the check-in, created at the same time; without a photo the photo store is untouched |
| TrainsPage.HandleAdd | src/features/trains/TrainsPage.tsx:20-52 | `handleAdd` changes the train store as `Add` says, leaves the other stores, and clears the input only after an add |
| TrainsPage.AddGuards | src/features/trains/TrainsPage.tsx:21-48 | a blank entry, a listed id, or an id already stored writes nothing, and each outcome holds exactly in its case |
| TrainsPage.AddInserts | src/features/trains/TrainsPage.tsx:37-42 | a successful add stores exactly one new train, the trimmed id created now |
| TrainsPage.HandleDelete | src/features/trains/TrainsPage.tsx:54-65 | once confirmed, deletes the train and reloads, with no cascade to check-ins; otherwise changes nothing |

## Left out

- Opening the database cannot fail or be blocked in the model: an `open` error, a version change from another tab and the asynchronous request and transaction life cycle are not modelled. Each call is one atomic step.
- The serialised text of JSON is not modelled. `JSON.stringify` indentation, key order and number formatting are left out. `JSON.parse` is the parameter `parse`, which maps text to an abstract JSON value or to "not JSON".
- `Date.now()`, `new Date()` and the local time zone are parameters. The offset is fixed: daylight-saving changes are not modelled. `toLocaleString` / `toLocaleDateString` and the calendar's `formatDate` are parameters (`stamp`, `today`, `dayKey`).
- String order is by Unicode scalar value, where IndexedDB compares UTF-16 code units. The two differ only beyond the Basic Multilingual Plane.
- Numbers are unbounded integers. Doubles beyond 2^53, fractional or NaN timestamps and the `Date` range limit are not modelled, so `parseInt` returns an exact integer.
- `new Date("")` (an empty date field gives an Invalid Date) is not modelled. The selected date is a day number.
- The `by-createdAt` index of `trains` is created by the upgrade but never queried by this code, so no scan over it is modelled.
- ExportImport.ReportCountMatchesBlocks: the report is counted as its list of line entries. A note typed with a line break followed by `[` puts one more text line opening with `[` into the report text, which this count does not see.
- HistoryPage.Merge: an imported element that does not decode as a train or check-in aborts the import like a failed `add`. The browser would store any object that has an `id`.
- CheckinPage.SortBy: the resulting order is stated only when every train id parses. With ids `parseInt` rejects, the comparator returns NaN, the JavaScript sort order is implementation-defined, and the model's insertion sort is one such order. Stability is not stated.
- The parts of the files named above that are not about stored data are not modelled: the clipboard, Web Share and file download helpers of `exportImport.ts`, image compression and size logging, photo loading for the detail view, and the calendar's month navigation and click handlers.
- React state, `alert` texts and the loading flags are not modelled. `confirm` is the parameter `confirmed`.
- Tasks, the photo purge and the `photoKeys` list are not modelled. This code version has no Task store and no purge, and it writes only the single `photoKey`; `photoKeys` and `taskId` are carried through export and import as optional fields.
- The corrected timestamp `SubmittedTimestamp` is proved on its own (`SubmittedTimestampDay`); no handler uses it, since `HandleSubmit` stores the timestamp the code computes.
- `generateId` is given as parameters (`checkinId`, `photoId`). The two clock reads of `handleSubmit` are the separate parameters `now` and `clock`.
- Where the code and its design description differ, the model follows the code:
  - deleting a check-in from the history deletes only the photo under the legacy `photoKey`, not every photo of the check-in;
  - the train list comes from a key-order `getAll` and is sorted on the check-in page only.

## Findings

| source | as written | input that shows it | evidently intended | confidence | as-written member | corrected member |
|---|---|---|---|---|---|---|
| src/features/checkin/CheckinPage.tsx:57-60 | `new Date(selectedDate)` reads the date-only string as UTC midnight, then `setHours` sets the local hours of that instant | time zone UTC-5, date field `2024-01-01`: the stored timestamp falls on 2023-12-31 local time, and the history and calendar show the check-in a day early | the check-in is stored on the selected local day at the current time of day | high; not executed | CheckinPage.SubmittedTimestampAsWritten, shown by CheckinPage.AsWrittenWestOfUtc and CheckinPage.AsWrittenNewYorkWinter | CheckinPage.SubmittedTimestamp, proved by CheckinPage.SubmittedTimestampDay |
