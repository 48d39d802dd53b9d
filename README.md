# MoneyMuse content planner — a Dafny model

MoneyMuse is a small React planner for a finance content channel. Topics
(content ideas) belong to one of three series and move through three states:
idea, scripting, published. They live in a remote table when a client could
be created, and otherwise in the browser's local storage. The planner shows a
searchable library with one column per series, plus two weekly calendars built
from the topics' target dates. A separate reference library imports benchmark
notes from a spreadsheet, searches and sorts them, and shows totals.

This project models that logic and proves what it promises:

| module | file | models |
|---|---|---|
| `Wrappers` | wrappers.dfy | `undefined`/`null` as `Option` |
| `Text` | text.dfy | `trim`, ASCII `toLowerCase`, `includes`, `endsWith`, `padStart(2, '0')`, integer `String(n)` and `Number(s)` |
| `Seqs` | seqs.dfy | `Array.prototype.filter` and the order it keeps |
| `Types` | types.dfy | types.ts: series, statuses, `Topic`, `Partial<Topic>` and object spread, the label tables |
| `Excel` | excel.dfy | lib/excel.ts: cell coercion, the row import loop, the file-type check |
| `TopicStore` | store.dfy | lib/supabase.ts: credential resolution, client gating, the local-fallback store as a class over a storage map |
| `TopicModal` | topic_modal.dfy | components/TopicModal.tsx: the form reset, the status rule and the record `handleSubmit` builds |
| `Calendar` | calendar.dfy | App.tsx date helpers over a proleptic Gregorian civil date |
| `Planner` | planner.dfy | App.tsx: search, library columns, day cells, `planData` and the save/status/delete handlers |
| `ReferenceLibrary` | reference_library.dfy | components/ReferenceLibrary.tsx: search, comparator and sort on a copy, statistics, sort buttons, delete and clear |

Some modelling decisions:

- Every remote call becomes a parameter that carries its outcome: insert or
  update succeeded, or a read that failed, returned nothing or returned rows.
  The clock, `generateId` and `crypto.randomUUID` are parameters too.
- Local storage is a `map<string, seq<Topic>>` field of the class
  `TopicStore.LocalFallbackStore`. Its methods reassign that field, as the
  source's read-modify-write of `moneymuse_local_topics` does. Its constant
  `client` is the module-level client's existence, which `isCloudEnabled`
  (`IsCloudEnabled`) reports.
- `Partial<Topic>` keeps JavaScript's difference between a missing key and a
  key present with the value `undefined` (`Slot<Option<T>>`). `handleSaveTopic`
  passes a whole topic as the update, so a topic without `target_date`
  clears the stored date when spread over it.
- A JavaScript `Date` is read in local time as a civil day plus the
  milliseconds since midnight. Days are counted from 1970-01-01, a Thursday,
  so `Weekday` is `getDay`'s numbering. `setDate` rolls over into the next or
  previous month one day at a time.
- `Array.prototype.sort` with the source's callback is modelled as an insertion
  sort in place on an array. The model proves that the result is a
  permutation and that every pair is in the order the callback accepts.
- The `ReferenceNote` interface is imported from `types` by lib/excel.ts:2
  and components/ReferenceLibrary.tsx:5, but the types.ts modelled here
  (38 lines) does not declare it. Its fields are the keys of the note literal in lib/excel.ts:87-105. Fields the
  library view reads through `?.` or `|| 0` are optional.
- A remote read that returns an empty array counts as data, because `[]` is
  truthy in JavaScript. So `getTopics` returns `[]` from the cloud rather than
  the local copy.

## Model

| member | source | states |
|---|---|---|
| Types.PatchOf | types.ts:4-14 | a whole topic used as a `Partial<Topic>` has all nine keys present with the topic's values, including the optional ones, so spreading it over any topic yields that topic |
| Types.OverlayEmpty | lib/supabase.ts:119 | spreading `{}` over a topic leaves it unchanged |
| Types.OverlayWhole | lib/supabase.ts:119 | spreading a whole topic over any topic yields exactly that topic, so an absent `target_date` clears the old one |
| Types.OverlayIdempotent | lib/supabase.ts:119 | spreading the same update twice is spreading it once |
| Types.AllSeries | types.ts:1 | there are exactly three series, all different |
| Types.AllSeriesComplete | types.ts:1 | every series is one of knowledge, hotspot, diagram |
| Types.AllStatuses | types.ts:2 | exactly three statuses, listed in lifecycle order idea, scripting, published |
| Types.SeriesLabel | types.ts:16-20 | `SERIES_LABELS` gives every series a non-empty label |
| Types.SeriesLabelsDistinct | types.ts:16-20 | no two series share a label |
| Types.SeriesIcon | types.ts:22-26 | `SERIES_ICONS` gives every series a non-empty icon name |
| Types.SeriesColor | types.ts:28-32 | `SERIES_COLORS` gives every series a non-empty class list |
| Types.StatusLabel | types.ts:34-38 | `STATUS_LABELS` gives every status a non-empty label |
| Types.StatusLabelsDistinct | types.ts:34-38 | no two statuses share a label |
| Seqs.Filter | lib/supabase.ts:133 | a filtered list is no longer than the original; every kept element passes the test and comes from the list |
| Seqs.FilterMembership | lib/supabase.ts:133 | an element is kept exactly when it is in the list and passes the test |
| Seqs.FilterIsSubsequence | lib/supabase.ts:133 | the kept elements keep their relative order |
| Seqs.FilterKeepsAll | lib/supabase.ts:133 | when every element passes, the list comes back unchanged |
| Seqs.FilterDropsAll | lib/supabase.ts:133 | when no element passes, the result is empty |
| Seqs.FilterAppend | lib/supabase.ts:133 | filtering a concatenation is concatenating the filtered parts |
| Seqs.FilterCommute | lib/supabase.ts:133 | two filters applied one after the other commute |
| Seqs.FilterMultiplicity | lib/supabase.ts:133 | an element that passes keeps all its occurrences, one that fails keeps none |
| Seqs.FilterSplitLength | lib/supabase.ts:133 | a test and its negation split the list: the two filtered lengths add up to the original length |
| Text.Trim | lib/excel.ts:34 | `trim()` leaves no white space at either end, never lengthens, and is empty exactly for all-space input |
| Text.LeadingSpaceSpec | lib/excel.ts:34 | the leading run `trim` drops is all white space, and the character after it is not |
| Text.TrailingSpaceSpec | lib/excel.ts:34 | the trailing run `trim` drops is all white space, and the character before it is not |
| Text.TrimmedIsFixpoint | lib/excel.ts:34 | trimming a string with no white space at its ends returns it unchanged |
| Text.TrimIdempotent | lib/excel.ts:34 | trimming twice is trimming once |
| Text.TrimPadded | lib/excel.ts:34 | white space added around a trimmed non-empty string is exactly what `trim` removes |
| Text.ToLower | App.tsx:209 | `toLowerCase` keeps the length and lowers each ASCII letter in place |
| Text.ToLowerIdempotent | App.tsx:209 | lower-casing twice is lower-casing once, and no upper-case ASCII letter remains |
| Text.ContainsIff | App.tsx:210 | `includes(q)` holds exactly when `q` occurs at some position |
| Text.ContainsEmpty | App.tsx:210 | every string includes the empty string |
| Text.NatToString | App.tsx:26 | `String(n)` of a non-negative integer is one or more decimal digits, a single digit exactly below 10 |
| Text.NatToStringRoundTrip | App.tsx:26 | the digits of `String(n)` read back as `n` |
| Text.IntToString | lib/excel.ts:34 | `String(i)` is non-empty and has no white space at its ends |
| Text.IntToStringRoundTrip | lib/excel.ts:27 | `Number(String(i)) == i` for every integer |
| Text.PadStart2 | App.tsx:26-27 | `padStart(2, '0')` gives at least two characters, ends with the input and fills only with '0' |
| Excel.ParseNumber | lib/excel.ts:25-29 | `parseNumber` is 0 for a missing or empty cell and for a value `Number` cannot read, else that number; never NaN |
| Excel.ParseNumberReadsBack | lib/excel.ts:25-29 | an integer written into a cell, padded with white space or not, is read back unchanged |
| Excel.ParseNumberOfInteger | lib/excel.ts:27-28 | a cell whose trimmed text is an integer literal parses as that integer |
| Excel.ParseNumberNonNumeric | lib/excel.ts:28 | a cell with non-blank text that is no number parses as 0 |
| Excel.ParseString | lib/excel.ts:32-35 | `parseString` is `''` for a missing cell, the trimmed text for a text cell, the decimal digits of a number cell and `'true'`/`'false'` for a boolean cell; never padded with white space |
| Excel.ParseStringEmptyIff | lib/excel.ts:32-35 | `parseString` is empty exactly for missing and blank cells |
| Excel.BuildNote | lib/excel.ts:87-105 | a row's note carries the given id and time; each text field is `parseString` of its own header's cell (title from `笔记标题`, note id from `笔记ID`, link, content, publish time, author id from `博主ID`, author name and link, cover) and each counter `parseNumber` of its own (likes, favorites, comments, shares, image count); the type is the type cell's trimmed text when that is non-empty and `'图文'` when it is blank |
| Excel.RowAcceptedIff | lib/excel.ts:108 | a row is kept exactly when its title cell or its note-id cell has content |
| Excel.KeptIffAccepted | lib/excel.ts:108-113 | the importer's test on the built note keeps it exactly when its row is accepted, whatever id and time it got |
| Excel.BuiltNotes | lib/excel.ts:85-105 | the forEach callback is applied to every row, with the row's index |
| Excel.MissingHeaders | lib/excel.ts:78-79 | the missing required headers are exactly those of `笔记标题` and `笔记ID` not among the first row's keys |
| Excel.ParseSpec | lib/excel.ts:53-135 | `parsedRows` is the number of notes and at most `totalRows`; success iff a note was kept; an unreadable file, no sheet or no rows fail with no notes and zero counts; otherwise `totalRows` is the sheet's row count |
| Excel.RowsAccountedFor | lib/excel.ts:85-124 | kept rows plus reported rows equal the rows seen |
| Excel.KeptIndicesOrdered | lib/excel.ts:113 | the kept rows are in strictly increasing row order |
| Excel.KeptIndicesExact | lib/excel.ts:108-113 | a row is among the kept ones exactly when its note passes the test |
| Excel.KeptNotesFollowIndices | lib/excel.ts:113 | the j-th imported note is the note of the j-th kept row |
| Excel.SkippedNameDroppedRows | lib/excel.ts:109 | each skip report names a dropped row as index + 2, and the reports are in increasing row order |
| Excel.DroppedRowsReported | lib/excel.ts:108-111 | every dropped row is reported with the number index + 2 |
| Excel.AllKept | lib/excel.ts:85-124 | when every row passes, all notes come through in order and nothing is reported |
| Excel.ParseSpecAccounting | lib/excel.ts:78-125 | the notes are the accepted rows' notes in order; the errors are the header warning, then one report per skipped row; `parsedRows + skipped == totalRows`; a missing header yields a warning and parsing continues |
| Excel.CompleteSheetSucceeds | lib/excel.ts:119-125 | a sheet whose every row has a title or note id succeeds, imports every row, and reports only the header warning |
| Excel.ParseExcelFile | lib/excel.ts:53-135 | `parseExcelFile` with its early returns computes exactly `ParseSpec` |
| Excel.ImportRows | lib/excel.ts:85-117 | the row loop pushes exactly the kept notes and one report per dropped row, in row order |
| Excel.IsValidExcelFile | lib/excel.ts:140-152 | a file is accepted iff its MIME type is one of the three listed, or its lower-cased name ends in one of the three extensions |
| Excel.IsValidExcelFileIgnoresCase | lib/excel.ts:149 | the name check gives the same verdict for the name and its lower-cased form |
| TopicStore.OrElse | lib/supabase.ts:20-21 | JavaScript's logical or on strings gives the first value unless it is null or empty, else the second |
| TopicStore.Resolve | lib/supabase.ts:20-21 | one credential is the trimmed stored value if non-empty, else the trimmed environment value if non-empty, else the trimmed default |
| TopicStore.GetStoredCredentials | lib/supabase.ts:15-23 | URL and key each resolve with the priority storage, then environment, then default |
| TopicStore.DefaultsWhenUnset | lib/supabase.ts:9-23 | with nothing stored and no environment, the credentials are the default URL and the empty key |
| TopicStore.SaveCredentials | lib/supabase.ts:25-29 | `saveCredentials` stores both values trimmed and leaves every other setting alone |
| TopicStore.SavedCredentialsReadBack | lib/supabase.ts:15-29 | after saving, a non-blank value is read back as saved; a blank URL reads as if nothing were stored |
| TopicStore.NoKeyNoClient | lib/supabase.ts:13 | with no key stored or in the environment, the empty default key is invalid and no client is created |
| TopicStore.LocalFallbackStore.constructor | lib/supabase.ts:31-44 | the client exists iff the URL is non-empty, the key is over 20 characters and contains '.', and `createClient` did not throw; `isCloudEnabled` reports this flag |
| TopicStore.LocalFallbackStore.GetTopics | lib/supabase.ts:46-58 | `getTopics` returns the remote rows when there is a client and the read returned data; otherwise the stored list, or `[]` when nothing is stored |
| TopicStore.WithoutId | lib/supabase.ts:133 | dropping an id never lengthens the list |
| TopicStore.WithoutIdSpec | lib/supabase.ts:133 | after dropping an id, no record has it; the other records all remain, in order |
| TopicStore.WithoutIdCounts | lib/supabase.ts:133 | dropping an id removes exactly the records of that id: every other record keeps its multiplicity, and the result's length plus the id's count is the original length |
| TopicStore.SaveLocally | lib/supabase.ts:80-86 | `saveLocally` puts the topic first and grows the list by at most one |
| TopicStore.SaveLocallySpec | lib/supabase.ts:80-86 | after `saveLocally` the id occurs exactly once; records of other ids survive in order; saving again changes nothing |
| TopicStore.SaveLocallyCounts | lib/supabase.ts:80-86 | `saveLocally` replaces every record of the id by the one topic: the length is the old length minus the id's count plus one, and every other record keeps its multiplicity |
| TopicStore.PatchStatus | lib/supabase.ts:99-103 | the local status update keeps the list's length |
| TopicStore.PatchStatusSpec | lib/supabase.ts:99-103 | only records with the id change, and in them only status and stamp; ids are kept; applying twice equals applying once with the later stamp; no match means no change |
| TopicStore.PatchDetails | lib/supabase.ts:117-121 | the local details update keeps the list's length |
| TopicStore.PatchDetailsSpec | lib/supabase.ts:117-121 | other ids are untouched and matching records get the new stamp; with no match the list is unchanged; a whole topic as the update replaces every record of its id |
| TopicStore.LocalFallbackStore.WriteLocal | lib/supabase.ts:85 | writing the list changes only the list entry of storage |
| TopicStore.LocalFallbackStore.AddTopic | lib/supabase.ts:60-78 | local storage is written with `saveLocally` exactly when the cloud insert did not succeed |
| TopicStore.LocalFallbackStore.UpdateTopicStatus | lib/supabase.ts:88-104 | unless the cloud update succeeded, the list read back through `getTopics` is stored with the status patch applied |
| TopicStore.LocalFallbackStore.UpdateTopicDetails | lib/supabase.ts:106-122 | unless the cloud update succeeded, the list read back through `getTopics` is stored with the update spread over matching records |
| TopicStore.LocalFallbackStore.DeleteTopic | lib/supabase.ts:124-135 | whatever the remote outcome, the stored list is the re-read list without the id, so no record of it remains |
| TopicModal.StartSeries | components/TopicModal.tsx:26 | the starting series is the topic's series, else the default series, else knowledge |
| TopicModal.Reset | components/TopicModal.tsx:21-37 | on opening, the form holds the edited topic's fields (note and target date blank where absent or unset, urgent only if true), or a blank form in the default series |
| TopicModal.DeriveStatus | components/TopicModal.tsx:49-57 | the derived status is the prior one or scripting, and without a date it is the prior one |
| TopicModal.DeriveStatusMonotone | components/TopicModal.tsx:49-57 | an edit never moves the status backwards; the result is scripting iff it was already, or a date is given to a new topic or an idea; a new topic with a date is scripting |
| TopicModal.DateOrNone | components/TopicModal.tsx:68 | an empty date is stored as absent, any other as itself |
| TopicModal.Submit | components/TopicModal.tsx:41-73 | nothing is saved iff the title is blank; otherwise title and note are trimmed, series and urgency are kept, the status is derived, an edit keeps its id and a new topic gets the fresh one, and the times are set |
| TopicModal.EditNeverRegresses | components/TopicModal.tsx:50-57 | submitting an edit never gives a status earlier in the lifecycle |
| TopicModal.EditKeepsIdentity | components/TopicModal.tsx:60-65 | an edit keeps the topic's id and `created_at` |
| TopicModal.BlankFormRejected | components/TopicModal.tsx:44-47 | a dialog opened blank cannot be submitted until a title is typed |
| TopicModal.CalendarPatch | App.tsx:258 | a calendar click opens the dialog with only the day's key and the knowledge series |
| TopicModal.CalendarClickSchedules | App.tsx:257-260 | after a click on a day and a typed title, the saved topic is new, in knowledge, in scripting and planned for that day |
| TopicModal.ReopenRoundTrip | components/TopicModal.tsx:21-69 | reopening a topic the dialog could have produced and submitting it untouched saves the same topic with only a new update time |
| TopicModal.TopicModalState.constructor | components/TopicModal.tsx:15-19 | the form starts blank, in knowledge, not urgent |
| TopicModal.TopicModalState.Sync | components/TopicModal.tsx:21-37 | when open, the effect sets the fields to `Reset`; when closed, nothing changes |
| TopicModal.TopicModalState.SetTitle | components/TopicModal.tsx:95 | typing changes only the title |
| TopicModal.TopicModalState.SetTargetDate | components/TopicModal.tsx:135 | picking a date changes only the date |
| TopicModal.TopicModalState.HandleSubmit | components/TopicModal.tsx:41-73 | the step-by-step handler returns exactly `Submit` of the current fields |
| Calendar.DaysBeforeMonthStep | App.tsx:13 | each month starts where the previous one ends, and December ends with the year |
| Calendar.YearStartStep | App.tsx:13 | consecutive years are one year's length apart, on both sides of 1970 |
| Calendar.Weekday | App.tsx:11 | `getDay` is between 0 and 6 |
| Calendar.NextDayNumber | App.tsx:13 | the next day is one day later, and next and previous day undo each other |
| Calendar.PrevDayNumber | App.tsx:13 | the previous day is one day earlier |
| Calendar.ShiftDaysNumber | App.tsx:13 | rolling over n days moves the day number by exactly n |
| Calendar.ShiftWithinMonth | App.tsx:13 | a shift that stays in the month only changes the day of the month |
| Calendar.SetDate | App.tsx:13 | `setDate(n)` lands on day n of the month, counted with roll-over, and keeps the time of day |
| Calendar.SetDateToday | App.tsx:20 | `setDate` with today's day of the month changes nothing |
| Calendar.WeekdayOfShift | App.tsx:11-13 | moving k days moves the weekday by k modulo seven |
| Calendar.MondayOffset | App.tsx:12 | the offset `1 - day`, or -6 on a Sunday, goes back 0 to 6 days and lands on a Monday |
| Calendar.GetMonday | App.tsx:9-16 | `getMonday` gives a Monday at midnight, 0 to 6 days back, exactly (weekday + 6) mod 7 days back, so a Sunday goes back six |
| Calendar.AddDays | App.tsx:18-22 | `addDays` moves exactly `days` calendar days, keeps the time, and with 0 returns the same moment |
| Calendar.FormatDateKey | App.tsx:24-29 | a day's key is at least `Y-MM-DD` long |
| Calendar.TwoDigits | App.tsx:26-27 | a month or day pads to exactly two digits that read back as the number |
| Calendar.JoinKeyParts | App.tsx:28 | the key template puts year, month and day at fixed places between the two dashes |
| Calendar.DateKeyRoundTrip | App.tsx:24-29 | every key splits back into the year, month and day it was made from |
| Calendar.DateKeyInjective | App.tsx:24-29 | two days have the same key iff they are the same day |
| Calendar.IsSameDaySpec | App.tsx:38-42 | `isSameDay` holds iff the keys agree, and is reflexive and symmetric |
| Planner.SearchTopics | App.tsx:206-211 | the search result is never longer than the list |
| Planner.SearchTopicsSpec | App.tsx:206-211 | an empty query finds every topic, otherwise exactly those whose lower-cased title or note contains the lower-cased query; hits keep list order; the query's case is irrelevant |
| Planner.LibraryColumn | App.tsx:214 | a column is never longer than the search result |
| Planner.LibraryColumnSpec | App.tsx:214 | a found topic is in the column of its own series iff it is unscheduled or an idea, and in no other column |
| Planner.ActiveTopics | App.tsx:291 | the dated topics are a part of the search result |
| Planner.DayTopics | App.tsx:254 | a day cell is never longer than the list it filters |
| Planner.DayTopicsSpec | App.tsx:253-254 | a day cell holds exactly the found topics planned for that day's key, and cells of different days share no topic |
| Planner.WeekDays | App.tsx:240 | a calendar shows seven consecutive days from its start, at the start's time of day |
| Planner.PlanData | App.tsx:290-296 | this week starts on the Monday 0 to 6 days back, at midnight; next week starts seven days later, also a Monday; the active topics are the dated found topics |
| Planner.SaveChoice | App.tsx:161 | a topic is updated iff its id is non-empty and already in the list, else added |
| Planner.PlannerApp.constructor | App.tsx:134 | the page starts with no topics |
| Planner.PlannerApp.LoadData | App.tsx:145-157 | loading sets the list to what `getTopics` returns |
| Planner.PlannerApp.HandleSaveTopic | App.tsx:159-171 | storage changes as the store's update or add prescribes, then the list is reloaded; without a client a new topic heads the list and an edited one is in it with the new update time |
| Planner.PlannerApp.HandleStatusChange | App.tsx:173-180 | the status patch goes through the store, then the list is reloaded |
| Planner.PlannerApp.HandleDelete | App.tsx:182-191 | nothing changes unless confirmed; then the store drops the id and the reloaded list, without a client, has no record of it |
| ReferenceLibrary.SearchNotes | components/ReferenceLibrary.tsx:104-111 | the search result is never longer than the notes |
| ReferenceLibrary.SearchNotesSpec | components/ReferenceLibrary.tsx:103-111 | an empty query keeps every note; otherwise exactly the notes whose title, content or author name contains the query ignoring case, in order |
| ReferenceLibrary.KeyOf | components/ReferenceLibrary.tsx:118-124 | the sort key is a text exactly for `published_at`, and a counter otherwise |
| ReferenceLibrary.StrLessTotal | components/ReferenceLibrary.tsx:127-129 | `<` on strings is irreflexive and asymmetric, and orders any two different strings |
| ReferenceLibrary.StrLessTransitive | components/ReferenceLibrary.tsx:127-129 | `<` on strings is transitive |
| ReferenceLibrary.Compare | components/ReferenceLibrary.tsx:114-130 | the callback only ever returns 1 or -1 |
| ReferenceLibrary.CompareSpec | components/ReferenceLibrary.tsx:118-129 | with missing values as 0 or '', distinct keys get opposite answers, larger first when descending and smaller first when ascending; equal keys get -1 both ways |
| ReferenceLibrary.InOrderTotal | components/ReferenceLibrary.tsx:114-130 | of any two notes, one may come before the other |
| ReferenceLibrary.InOrderTransitive | components/ReferenceLibrary.tsx:114-130 | "may come before" is transitive |
| ReferenceLibrary.SortNotes | components/ReferenceLibrary.tsx:114 | the sort leaves every pair in the callback's order and holds the same notes |
| ReferenceLibrary.InsertLast | components/ReferenceLibrary.tsx:114 | one insertion step extends the sorted prefix by one note and keeps the same notes |
| ReferenceLibrary.TotalsAppend | components/ReferenceLibrary.tsx:137-138 | the like and favourite totals of joined lists add up |
| ReferenceLibrary.TotalsNonNegative | components/ReferenceLibrary.tsx:137-138 | with no negative counters, missing ones counting as 0, the totals are not negative |
| ReferenceLibrary.AuthorIds | components/ReferenceLibrary.tsx:139 | there are no more distinct authors than notes |
| ReferenceLibrary.AuthorIdsSpec | components/ReferenceLibrary.tsx:139 | an author id is counted iff it is non-empty and some note carries it |
| ReferenceLibrary.ComputeStats | components/ReferenceLibrary.tsx:136-141 | the statistics are the two totals and the number of distinct non-empty author ids, which is at most the number of notes |
| ReferenceLibrary.ClickSort | components/ReferenceLibrary.tsx:227-233 | clicking the active field flips the direction; clicking another field selects it, descending |
| ReferenceLibrary.ClickSortSpec | components/ReferenceLibrary.tsx:227-233 | two clicks on the same button restore the state; a newly chosen field starts descending, as the initial state does |
| ReferenceLibrary.ShouldImportParsed | components/ReferenceLibrary.tsx:49 | a parsed upload is imported exactly when it succeeded, and then it has at least one note |
| ReferenceLibrary.RemoveNote | components/ReferenceLibrary.tsx:79 | deleting never lengthens the list |
| ReferenceLibrary.RemoveNoteSpec | components/ReferenceLibrary.tsx:79 | no note with the id remains; every other note stays, in order, with its multiplicity; the result's length plus the number of notes with the id is the original length; an absent id changes nothing |
| ReferenceLibrary.LibraryView.constructor | components/ReferenceLibrary.tsx:19-24 | the page starts with no notes, an empty search and sorting by likes, descending |
| ReferenceLibrary.LibraryView.ClickSortOption | components/ReferenceLibrary.tsx:227-233 | a sort button moves the sort state as `ClickSort` does and changes nothing else |
| ReferenceLibrary.LibraryView.DisplayedNotes | components/ReferenceLibrary.tsx:100-133 | the shown list holds exactly the found notes, in the callback's order, and `notes` is not reordered |
| ReferenceLibrary.LibraryView.HandleDelete | components/ReferenceLibrary.tsx:74-83 | after confirmation and a successful remote delete, the note leaves the list; otherwise nothing changes |
| ReferenceLibrary.LibraryView.HandleClearAll | components/ReferenceLibrary.tsx:85-97 | after two confirmations and a successful remote clear the list is empty; otherwise nothing changes |

## Left out

- The XLSX library, `file.arrayBuffer` and `sheet_to_json` (lib/excel.ts:58-68) are not modelled. The file is given as an unreadable file or a list of sheets, each a list of header-to-cell maps.
- `COLUMN_MAPPING` (lib/excel.ts:5-22) is never read, so its `IP地址` entry has no effect. The importer's fields come from the fixed keys of the note literal.
- The row-level `catch` (lib/excel.ts:114-116) is not modelled: building a note from cells cannot throw.
- The wording of error messages is not modelled; each diagnostic keeps only its kind and row number.
- Excel.ParseNumber: numeric cells are modelled as unbounded integers only (`Cell.Num` holds an `int`), so the model has no fractional cell at all. `Number` is modelled for booleans, blank text and optionally signed decimal integers; fractions, exponents, hexadecimal and `Infinity` in text count as non-numeric.
- Excel.ParseNumber, Text.IntToString: JavaScript numbers are doubles. `Number` rounds integers beyond 2^53, and `String(n)` in `parseString` writes exponent form once |n| reaches 1e21. The model keeps every digit exactly.
- All Supabase client calls are replaced by parameters that give each call's outcome. This covers `createClient`, select, insert, update and delete.
- `testConnection` (lib/supabase.ts:139-147) is not modelled: it only calls the remote service.
- `window.location.reload` (lib/supabase.ts:28) is not modelled.
- `JSON.parse`/`JSON.stringify` of the stored list are not modelled. Storage holds the list itself, so a corrupt stored value cannot arise.
- The remote table's `created_at` descending order is the remote service's concern. The rows it returns are a parameter.
- `generateId`, `crypto.randomUUID`, `Math.random`, `Date.now` and `new Date().toISOString()` are parameters. The model claims no uniqueness of ids, because the code does not guarantee it.
- The reference-note store functions `getReferenceNotes`, `addReferenceNotes`, `deleteReferenceNote` and `clearReferenceNotes` are not part of this model. Their outcomes are parameters of the handlers.
- For the same reason, the upload's import path after the `ShouldImport` check (components/ReferenceLibrary.tsx:51-71) is not modelled.
- `loadNotes` (components/ReferenceLibrary.tsx:34-46) is not modelled, since it reads from that store.
- ReferenceLibrary.SortNotes: the host's `Array.prototype.sort` algorithm is not modelled. Its order on ties is implementation-defined under a callback that returns -1 both ways. The model sorts with a stable insertion sort and proves only that the result is a permutation in the callback's order.
- Text.ToLower: only ASCII letters are lowered, not Unicode case mapping.
- ReferenceLibrary.StrLess: it compares Dafny characters, not UTF-16 code units, so text outside the Basic Multilingual Plane may order differently.
- Time zones, daylight saving, `Date` range limits and ISO parsing are not modelled. A moment is a civil day plus milliseconds since midnight.
- `setHours(0,0,0,0)` is modelled as setting the time of day to 0.
- Calendar.FormatDateKey: its own contract states only a minimum length. The `YYYY-MM-DD` shape and padding are stated by `TwoDigits`, `JoinKeyParts` and `DateKeyRoundTrip`.
- Calendar.FormatDateKey: a year is written as `String(year)` without padding, as the source does.
- `formatNumber` and the `toFixed` averages on the library page use floating point and are not modelled.
- `formatDisplayDate` is not modelled: it only produces display text.
- Rendering, CSS classes, modals, `alert`, `setTimeout`, drag and drop, and the loading, importing and message flags are not modelled.
- `window.confirm` is a boolean parameter.
- The `Array.isArray(topics)` guard (App.tsx:207) is not modelled: the topic list is always a sequence.
- `try`/`catch` around handlers that cannot fail in the model is not modelled.
- Concurrency is not modelled: the order of awaits, a `loadData` not awaited after a status change or delete, and other tabs writing local storage.
- TopicStore.LocalFallbackStore.constructor: whether `createClient` throws is a parameter, `created`.
