# MediBuddy medicine collection and alarms, modelled in Dafny

MediBuddy is a browser application for medicine reminders. It keeps a list of
medicines in the browser's `localStorage`. Each medicine has a kind
(one-time, regular or course), a dosage, a stock count, optional course
dates, an optional WhatsApp number and a list of alarms. Each alarm has an
"HH:MM" time, an optional list of weekdays and an on/off switch.

This project models the part of the application that works on that list:

- the storage helper module (`getAllMedicines`, `addMedicine`,
  `updateMedicine`, `deleteMedicine`, `searchMedicines`,
  `getMedicinesByType`, `getLowStockMedicines`);
- the two display formatters;
- the once-a-minute notification tick, which decides which
  (medicine, alarm) pairs send a WhatsApp reminder;
- the alarm list page (flatten, sort by time, switch an alarm on or off,
  schedule text);
- the add-medicine form (weekday picker, validation, new record, append);
- the search page (filter, delete);
- the home page's grouping by kind.

`localStorage` is a class holding a map from key to the decoded medicine
list. The helper module and the pages use different keys
(`"medibuddy-medicines"` and `"medicines"`), so they are two separate
stores, and `MedicineStorage.StoresAreSeparate` proves that neither sees
the other's writes.

Files (one module each):

- `wrappers.dfy`: `Option` and `Result`.
- `text.dfy`: the JavaScript string functions the core uses:
  - `trim` on the JavaScript whitespace set;
  - ASCII `toLowerCase`;
  - `includes`, `join`;
  - `toString` / `padStart(2, '0')`;
  - `parseInt(s, 10)`, with `NaN` as `None`;
  - the truncating `%`;
  - code-point order.
- `seqs.dfy`: `filter` and `map` on sequences, and their laws.
- `medicine.dfy`: the records, and the (medicine, alarm) pairs in the order
  nested `forEach` loops visit them.
- `storage.dfy`: `localStorage` and load-or-empty.
- `medicine_storage.dfy`: src/utils/medicineStorage.ts.
- `formatters.dfy`: src/utils/formatters.ts.
- `notifications.dfy`: src/hooks/useAutomaticNotifications.ts.
- `alarms_page.dfy`: src/pages/Alarms.tsx.
- `add_medicine.dfy`: src/pages/AddMedicine.tsx.
- `search_page.dfy`: src/pages/SearchMedicine.tsx.
- `index_page.dfy`: src/pages/Index.tsx.

The source field `type` is called `kind` here, because `type` is a Dafny
keyword.

## Model

| member | source | states |
|---|---|---|
| MedicineTypes.PairsIndex | src/hooks/useAutomaticNotifications.ts:20-23 | Alarm j of medicine i is visited at position "alarms of the medicines before i, plus j"; there are exactly as many pairs as alarms |
| MedicineTypes.PairsLength | src/pages/Alarms.tsx:33-43 | The nested loops visit one pair per alarm: the pair count is the sum of the alarm counts |
| MedicineTypes.PairsConcat | src/hooks/useAutomaticNotifications.ts:20-23 | The outer loop visits the pairs of a joined list as those of the first part followed by those of the second |
| MedicineTypes.PairsMembership | src/hooks/useAutomaticNotifications.ts:20-23 | A pair is visited exactly when it is some alarm j of some medicine i |
| Storage.LocalStorage.SetItem | src/utils/medicineStorage.ts:17 | Writing a key replaces that key's list and leaves every other key as it was |
| Storage.LoadAfterWrite | src/utils/medicineStorage.ts:8-11 | Loading after a write gives the written list; a write to another key does not change what is loaded |
| Storage.Load | src/pages/AddMedicine.tsx:97-98 | `stored ? JSON.parse(stored) : []`: the list under the key, or the empty list when nothing is stored (no contract of its own; its laws are `LoadAfterWrite`) |
| MedicineStorage.GetAllMedicines | src/utils/medicineStorage.ts:8-11 | The helper's list, or the empty list when nothing is stored under its key (no contract of its own; its laws are `StoresAreSeparate`) |
| MedicineStorage.StoresAreSeparate | src/utils/medicineStorage.ts:5-11 | Nothing stored gives the empty list; the helper's key and the pages' key never see each other's writes |
| MedicineStorage.AddMedicine | src/utils/medicineStorage.ts:14-18 | The helper's list becomes the old list followed by the new medicine; no other key changes |
| MedicineStorage.FindIndexById | src/utils/medicineStorage.ts:23 | -1 exactly when no medicine has the id; otherwise the first position holding it |
| MedicineStorage.UpdateMedicine | src/utils/medicineStorage.ts:21-29 | Only the first medicine with the id is replaced, and the list is written back; with no such id nothing is written |
| MedicineStorage.WithoutId | src/utils/medicineStorage.ts:34 | The result holds exactly the medicines whose id differs, as an order-preserving subsequence |
| MedicineStorage.DeleteKeepsOthers | src/utils/medicineStorage.ts:34 | Every medicine with another id keeps its multiplicity; medicines with the id are gone |
| MedicineStorage.DeleteAbsentIsIdentity | src/utils/medicineStorage.ts:32-36 | Deleting an id nobody has gives the same list |
| MedicineStorage.DeleteTwiceIsDeleteOnce | src/utils/medicineStorage.ts:32-36 | Deleting twice equals deleting once |
| MedicineStorage.DeleteMedicine | src/utils/medicineStorage.ts:32-36 | The helper's list becomes the filtered list, written back even when nothing was removed |
| MedicineStorage.SearchMedicines | src/utils/medicineStorage.ts:39-49 | A blank query returns the whole list; otherwise exactly the medicines whose lower-cased name or description contains the lower-cased untrimmed query, in order |
| MedicineStorage.GetMedicinesByType | src/utils/medicineStorage.ts:52-55 | Exactly the medicines of that kind, in order |
| MedicineStorage.GetLowStockMedicines | src/utils/medicineStorage.ts:58-61 | Exactly the medicines with stock at most the threshold (5 when none is given), in order |
| MedicineStorage.QueriesKeepMultiplicity | src/utils/medicineStorage.ts:52-61 | The kind and low-stock filters keep every selected medicine as often as it occurs |
| Formatters.FormatMedicineSchedule | src/utils/formatters.ts:4-24 | The summary is never empty |
| Formatters.ScheduleShape | src/utils/formatters.ts:4-24 | One-time: "One time on " and the first alarm's time, or "schedule not set" without an alarm or with an empty time. Regular: "Schedule not set" without alarms, else it starts with the first alarm's time and " on ". Course: "Course: S to E", each date rendered or "undefined start"/"undefined end" when absent or empty, whatever the alarms |
| Formatters.ScheduleUsesFirstAlarmOnly | src/utils/formatters.ts:5-15 | Alarms after the first never change the summary |
| Formatters.RegularScheduleDays | src/utils/formatters.ts:9-15 | No day list, an empty one or a single empty name joins to a falsy text and reads "every day"; every other day list is joined with ", " |
| Formatters.FirstSegment | src/utils/formatters.ts:29 | The first `split(':')` field holds no colon |
| Formatters.FormatTime | src/utils/formatters.ts:26-37 | Every output, NaN hour included, ends in " AM" or " PM" |
| Formatters.ClockText | src/utils/formatters.ts:30-33 | The `${hour12}:${minutes} ${amPm}` template ends in " AM" or " PM" |
| Formatters.ClockOfHour | src/utils/formatters.ts:30-33 | For an hour of the day the template gives the clock-face hour, the minutes and " AM" exactly below 12 |
| Text.ParseInt | src/utils/formatters.ts:30 | `parseInt(s, 10)`: leading whitespace, an optional sign, then the longest run of digits; `None` (NaN) without digits (no contract of its own; `ParseDigits` states the digit-string case) |
| Text.ParseDigits | src/utils/formatters.ts:30 | `parseInt` of a non-empty digit string is its decimal value |
| Formatters.Hour12 | src/utils/formatters.ts:32 | The 12-hour clock face lies in 1..12 |
| Formatters.Hour12IsRemainderOr12 | src/utils/formatters.ts:32 | The remainder by 12, or 12 when it is 0, is 12 for hours 0 and 12, the hour itself for 1..11, and hour - 12 for 13..23 |
| Formatters.FormatTimeOfParsedHour | src/utils/formatters.ts:29-33 | For any text whose first `split(':')` field parses to 0..23: the clock-face hour, then the second field (up to any further colon) or "undefined" without a colon, then " AM" exactly below 12 |
| Formatters.SplitAtFirstColon | src/utils/formatters.ts:29 | On "a:b" with no colon in a, the first `split(':')` field is a and the text after the first colon is b |
| Formatters.FirstSegmentWithoutColon | src/utils/formatters.ts:29 | A text without a colon is its own first `split(':')` field |
| Formatters.AfterFirstColon | src/utils/formatters.ts:29 | The text after the first colon, or nothing when there is no colon (no contract of its own; its laws are `SplitAtFirstColon`) |
| Formatters.SecondField | src/utils/formatters.ts:29 | The second `split(':')` field, up to any further colon, or "undefined" when there is no colon (no contract of its own; its laws are `FormatTimeOfParsedHour`) |
| Formatters.FormatTimeOfHHMM | src/utils/formatters.ts:26-33 | On "HH:MM" the hour loses its leading zero and turns 12-hour; the minutes are copied; the suffix is " AM" exactly when the hour is below 12 |
| Notifications.CurrentTimeShape | src/hooks/useAutomaticNotifications.ts:11 | For a time of day the current-time text has 5 characters, a colon in the middle, and two-digit fields that read back as the hour and the minute |
| Notifications.CurrentTimeInjective | src/hooks/useAutomaticNotifications.ts:11 | Different times of day give different texts |
| Notifications.CurrentTime | src/hooks/useAutomaticNotifications.ts:11 | Below 100 each field pads to two digits: five characters with the colon at index 2 |
| Notifications.Tick | src/hooks/useAutomaticNotifications.ts:9-40 | With nothing stored nothing is sent; otherwise exactly the messages of the firing pairs, in medicine order and then alarm order |
| Notifications.CheckMedicine | src/hooks/useAutomaticNotifications.ts:20-38 | One medicine sends the reminder of each alarm that is enabled, scheduled today and set to the current time, in alarm order, and nothing without a number |
| Notifications.Dispatches | src/hooks/useAutomaticNotifications.ts:20-39 | Never more messages than alarms |
| Notifications.DispatchesCharacterized | src/hooks/useAutomaticNotifications.ts:21-35 | A message is sent exactly when some alarm is due: its medicine has a number, the alarm is on, allowed today and at the current time; the message goes to that number with "Time to take your medicine: name - dosage" |
| Notifications.HasNumber | src/hooks/useAutomaticNotifications.ts:20 | A medicine without a WhatsApp number (absent or empty) is skipped (no contract of its own; its laws are `DispatchesCharacterized` and `NumberlessMedicineIsSilent`) |
| Notifications.ScheduledToday | src/hooks/useAutomaticNotifications.ts:26-28 | A regular alarm with a day list is skipped on a day not in it (no contract of its own; its laws are `WeekdayRule`) |
| Notifications.Fires | src/hooks/useAutomaticNotifications.ts:20-31 | An alarm fires when its medicine has a number, it is on, it is scheduled today and its time equals the current time (no contract of its own; its laws are `DispatchesCharacterized`) |
| Notifications.ReminderText | src/hooks/useAutomaticNotifications.ts:32 | "Time to take your medicine: " then the name, " - " and the dosage (no contract of its own; its laws are `DispatchesCharacterized`) |
| Notifications.AtMostOnePerAlarm | src/hooks/useAutomaticNotifications.ts:20-39 | One message per due alarm and none otherwise: the k-th message is the reminder of the k-th due alarm, and each alarm occurs among the due ones exactly once when due and never otherwise |
| Notifications.DispatchesConcat | src/hooks/useAutomaticNotifications.ts:20-39 | The messages of a joined list are the messages of the first part followed by those of the second |
| Notifications.NumberlessMedicineIsSilent | src/hooks/useAutomaticNotifications.ts:21 | Removing a medicine without a number from anywhere in the list leaves the messages unchanged |
| Notifications.WeekdayRule | src/hooks/useAutomaticNotifications.ts:27 | Outside regular medicines, or without a day list, the weekday plays no part; a regular alarm with a list fires only on a listed day, and an empty list never fires |
| AlarmsPage.EntriesOnePerAlarm | src/pages/Alarms.tsx:31-43 | One entry per alarm, at the position of its (medicine, alarm) pair, carrying that medicine's id, name, kind and dosage |
| AlarmsPage.EntryOf | src/pages/Alarms.tsx:35-41 | The entry for one alarm: its medicine's id, name, kind and dosage, and the alarm itself (no contract of its own; its laws are `EntriesOnePerAlarm`) |
| AlarmsPage.Entries | src/pages/Alarms.tsx:31-43 | One entry per alarm: as many entries as alarms |
| AlarmsPage.ExtractAlarms | src/pages/Alarms.tsx:31-43 | The nested loops push exactly the flattened entries, in pair order |
| AlarmsPage.InsertByTime | src/pages/Alarms.tsx:46-48 | Inserting adds exactly one entry |
| AlarmsPage.SortByTime | src/pages/Alarms.tsx:46-48 | The sorted list has the input's length (its order, contents and stability are the lemmas below) |
| AlarmsPage.SortIsSortedPermutation | src/pages/Alarms.tsx:46-48 | The sorted list is non-decreasing by time and holds the same entries with the same multiplicities |
| AlarmsPage.SortIsStable | src/pages/Alarms.tsx:46-48 | Entries with equal times keep their flattened order |
| AlarmsPage.SortMapCommute | src/pages/Alarms.tsx:46-48 | Changing entries without changing their times commutes with the sort |
| AlarmsPage.ToggleChangesOnlyMatches | src/pages/Alarms.tsx:64-75 | For every medicine, with or without alarms: it keeps its place, its alarm count and every field but its alarms. Every alarm keeps its place and every field but `enabled`, which becomes the value exactly on the alarms with that id inside the medicines with that id |
| AlarmsPage.ToggleInMedicines | src/pages/Alarms.tsx:64-75 | The switched list has the same length, and each medicine keeps its id and its number of alarms |
| AlarmsPage.SetEnabled | src/pages/Alarms.tsx:65-70 | The alarm with the given id gets the new flag; any other alarm is returned as it was (no contract of its own; its laws are `ToggleChangesOnlyMatches`) |
| AlarmsPage.ToggleMedicine | src/pages/Alarms.tsx:63-75 | The medicine with the given id gets its alarms switched; any other medicine is returned as it was (no contract of its own; its laws are `ToggleChangesOnlyMatches`) |
| AlarmsPage.ToggleUnknownIsIdentity | src/pages/Alarms.tsx:64-78 | Unknown ids rewrite the list unchanged |
| AlarmsPage.ToggleTwice | src/pages/Alarms.tsx:64-75 | The later of two switches wins, so switching twice to the same value equals switching once |
| AlarmsPage.ViewToggleChangesOnlyMatches | src/pages/Alarms.tsx:81-86 | The list on screen changes only the flag of the entries matching both ids |
| AlarmsPage.ToggleInView | src/pages/Alarms.tsx:81-86 | The switched screen list has the same length, and each entry keeps its time and medicine id, so the switch keeps the time order |
| AlarmsPage.ToggleEntry | src/pages/Alarms.tsx:81-86 | An entry matching both ids gets its alarm's flag set; any other entry is returned as it was (no contract of its own; its laws are `ViewToggleChangesOnlyMatches`) |
| AlarmsPage.EntriesAfterToggle | src/pages/Alarms.tsx:64-86 | Flattening the switched store gives the flattened list with the screen's switch applied |
| AlarmsPage.ViewStaysInSync | src/pages/Alarms.tsx:57-86 | A screen list that is the sorted flattening of the store stays so after a switch |
| AlarmsPage.AlarmSchedule | src/pages/Alarms.tsx:96-106 | The schedule text is never empty; a one-time entry reads "One time only" and a course entry "During course" (the regular texts are `AlarmScheduleOfRegular`) |
| AlarmsPage.AlarmScheduleOfRegular | src/pages/Alarms.tsx:99-101 | No day list, an empty one or a single empty name reads "Every day" (the summary of src/utils/formatters.ts then says "every day"); every other list is its days joined by ", ", and the summary of the first alarm is its time, " on " and that text |
| AlarmsPage.AlarmsView.constructor | src/pages/Alarms.tsx:18 | The list on screen starts empty |
| AlarmsPage.AlarmsView.LoadAlarms | src/pages/Alarms.tsx:24-55 | With a stored list the screen shows its sorted flattening; without one, the screen is unchanged |
| AlarmsPage.AlarmsView.ToggleAlarmStatus | src/pages/Alarms.tsx:57-94 | With a stored list, the switched list is written back and the screen is switched; without one, nothing changes |
| AddMedicinePage.ToggleDayFlipsOnlyThatDay | src/pages/AddMedicine.tsx:37-43 | After the toggle the day is picked exactly when it was not; every other day is as it was |
| AddMedicinePage.ToggleDayKeepsNoDuplicates | src/pages/AddMedicine.tsx:37-43 | A picker without repeated days stays without them |
| AddMedicinePage.ToggleDayTwice | src/pages/AddMedicine.tsx:37-43 | Toggling an unpicked day twice restores the list; a picked day moves to the end |
| AddMedicinePage.ToggleDay | src/pages/AddMedicine.tsx:37-43 | The toggled day is picked afterwards exactly when it was not before; how the list changes (appended last, or removed with every other day kept in order and count) is `ToggleDayEffect` |
| AddMedicinePage.ToggleDayEffect | src/pages/AddMedicine.tsx:37-43 | An unpicked day is appended: the list grows by one, the old picks stay in front unchanged and the day is last. A picked day is removed: the result is a subsequence of the old list with no copy of that day, and every other day keeps exactly its count |
| AddMedicinePage.NewMedicine | src/pages/AddMedicine.tsx:56-93 | A form is accepted exactly when the name is not blank and it is not a course missing a date |
| AddMedicinePage.NewMedicineProperties | src/pages/AddMedicine.tsx:56-93 | A blank name is refused; then a course without both dates. An accepted form gives the untrimmed name, one enabled alarm at the entered time, the picked days or all seven weekdays for a regular medicine and none otherwise, the entered dates for a course and none otherwise, the description, dosage, stock, photo and creation time as given, and no number |
| AddMedicinePage.AlarmDays | src/pages/AddMedicine.tsx:70-72 | A regular medicine gets the picked days, or all seven weekdays when none are picked; other kinds get no day list (no contract of its own; its laws are `NewMedicineProperties`) |
| AddMedicinePage.AddedMedicineIsSilent | src/pages/AddMedicine.tsx:74-84 | A medicine added by the form has no number, so the notification tick sends exactly what it sent before |
| AddMedicinePage.HandleSubmit | src/pages/AddMedicine.tsx:56-108 | A refused form writes nothing; an accepted one appends the new record to the pages' list, which starts empty when nothing is stored |
| SearchPage.SearchResults | src/pages/SearchMedicine.tsx:27-39 | A blank term gives nothing; otherwise exactly the medicines whose lower-cased name or description contains the lower-cased term, in order |
| SearchPage.SearchResultsKeepMultiplicity | src/pages/SearchMedicine.tsx:32-36 | Each match occurs as often as in the list |
| SearchPage.PageAndHelperSearch | src/pages/SearchMedicine.tsx:29-36 | The page agrees with the helper's search on non-blank terms; on a blank term the page shows nothing and the helper returns everything |
| SearchPage.SearchIgnoresCase | src/pages/SearchMedicine.tsx:34-35 | Terms with the same lower-case form find the same medicines |
| SearchPage.DeleteCommutesWithSearch | src/pages/SearchMedicine.tsx:49-58 | Deleting from the results equals searching the list after deletion, so when the page's list is the stored list the handler's direct update already is the settled result |
| SearchPage.SearchView.constructor | src/pages/SearchMedicine.tsx:11-13 | Term, list and results start empty |
| SearchPage.SearchView.FilterEffect | src/pages/SearchMedicine.tsx:27-39 | The results become the search of the list for the term; nothing else changes |
| SearchPage.SearchView.LoadMedicines | src/pages/SearchMedicine.tsx:15-25 | The list becomes the stored list when there is one and is unchanged otherwise; the results follow |
| SearchPage.SearchView.SetSearchTerm | src/pages/SearchMedicine.tsx:76 | The term changes and the results follow |
| SearchPage.SearchView.HandleDelete | src/pages/SearchMedicine.tsx:27-66 | Nothing stored: nothing changes. Otherwise the store and the page list become the stored list without the id, and the results, after the filter effect re-runs on the new list, are the search of that list |
| IndexPage.LoadedMedicines | src/pages/Index.tsx:15-31 | The stored list, or empty when nothing is stored |
| IndexPage.GroupsPartition | src/pages/Index.tsx:37-40 | Each group holds exactly its kind, in order; the groups are disjoint, cover the list, and their sizes add up to its length |
| IndexPage.GroupByType | src/pages/Index.tsx:38-40 | The one-time, regular and course medicines, each filtered from the list in order (no contract of its own; its laws are `GroupsPartition` and `GroupsAreAPermutation`) |
| IndexPage.GroupsAreAPermutation | src/pages/Index.tsx:37-40 | Counted with multiplicity, the three groups together are the list |

## Left out

- JSON text: each key holds the decoded list. `JSON.parse`/`JSON.stringify` and their `try`/`catch` paths are left out, as are the errors the catches report.
- Timer and clock: the `setInterval`/`clearInterval` timer and `new Date()` are left out. The tick takes the hour, the minute and the weekday name as parameters.
  - Two ticks may fall in the same minute, or a delayed tick may skip one. The model says nothing about how ticks are spaced.
  - The tick remembers nothing between calls, so it does not deduplicate.
- Dates: `toLocaleDateString` for course dates is the parameter `renderDate`.
- Sending: `encodeURIComponent` and `window.open` are left out. A sent reminder is the (number, message) pair.
- Fresh ids and timestamps: `uuidv4()` and `new Date().toISOString()` are parameters of `HandleSubmit`.
- Page side effects: `toast`, `navigate`, `window.location.reload`, the `FileReader` photo upload and all rendering are left out.
- src/components/medicine/MedicineCard.tsx and src/components/medicine/MedicineTypeSection.tsx are not part of this model:
  - the card's `stock <= 5` is `GetLowStockMedicines` with `DefaultLowStockThreshold`;
  - the section's delete is the search page's delete filter followed by a reload.
- Lower-casing: `toLowerCase` is modelled for ASCII letters only, not full Unicode.
- `AlarmsPage.SortByTime`: the sort uses code-point order in place of `localeCompare`. The two agree on the zero-padded "HH:MM" texts the form produces. Code-point order also differs from UTF-16 code-unit order above U+FFFF.
- `AlarmsPage.SortByTime`: the library's in-place `Array.prototype.sort` is modelled as a stable insertion sort on values, so aliasing of the sorted array is not modelled.
- `Formatters.FormatTime`: `parseInt` reads digits into an unbounded integer, so the loss of precision beyond 2^53 is not modelled.
- `MedicineStorage.GetMedicinesByType`: the kind is a `MedicineType`. The source accepts any string and returns the empty list for one that names no kind; that case is not modelled.
- `MedicineTypes.Medicine`: `stock` is an integer. `NaN`, from `parseInt` of an empty stock field, is not modelled.
- The code's behaviour is followed throughout. None of these is modelled, because the code does not do them:
  - deduplication of reminders across ticks;
  - course start and end dates limiting reminders;
  - expiry of one-time alarms;
  - a check that the start date precedes the end date;
  - a check of the "HH:MM" format.
