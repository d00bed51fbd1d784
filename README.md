# Teacher scheduler core in Dafny

A model of the scheduling core of `teacher-scheduler-app`, a browser tool
that keeps teachers, groups, students and a weekly grid of one-hour classes.
The model covers four parts of the app:

- **Conflict rule and teacher colours** (`src/utils/schedulerUtils.ts`,
  module `SchedulerUtils`):
  - `checkForConflicts` becomes a loop method proved equal to an
    exists-predicate.
  - `getTeacherColor` becomes a loop method proved equal to a 32-bit
    rolling hash that indexes the ten-entry palette.
- **Entity store** (`src/context/SchedulerProvider.tsx`, module
  `SchedulerProvider`): a class `Scheduler` with four sequence fields.
  - Its methods are the store's mutations: class add and update gated by
    the conflict rule, class delete by id; append, replace-by-id and
    cascading delete for teachers, groups and students; import; confirmed
    clear.
  - Every method states its whole new state.
  - The schedule invariant "unique class ids, no teacher and no group value
    booked twice in one clock hour" is preserved by class add, update and
    delete and by the cascading deletes. Import installs any list.
- **Week grid** (`src/components/SchedulerCalendar.tsx`, module
  `SchedulerCalendar`):
  - the day-name table and the thirteen time rows;
  - the teacher and group filters, as a method that reassigns the filtered
    list;
  - which classes sit in which cell, and the search highlight;
  - `onDragEnd`: it parses `cell-<Day>-<HH:00>`, applies the guards, and
    rebuilds the start time step by step with the date setters. It then
    calls the store's update once, which may still refuse the change on a
    conflict.
- **Text report** (`src/components/TextReportView.tsx`, module
  `TextReportView`):
  - `classesByDay`: seven Monday-to-Sunday sections. Each section is the
    classes of its weekday, sorted in place by start time on a fresh array.
  - the conditions that hide empty sections and show the "no classes"
    placeholder.

Supporting modules:
- `Types`: the record shapes of `src/types.ts`.
- `Clock`: instants as integer milliseconds since the epoch, read in UTC,
  with the `Date` and date-fns calls written as arithmetic.
- `Text`: the JavaScript string operations used: `split` on one character,
  `parseInt(…, 10)`, `trim`, `toLowerCase`, `includes`, `padStart`.
- `Seqs`: `filter` and `map` with their lemmas.

Two classes that both have no group conflict when they share a clock hour,
because `schedulerUtils.ts:39` compares the optional `groupId`s directly.
In the model `groupId` is an `Option<string>` compared with `==`, and
`SchedulerUtils.GroupClash` states this.

## Model

| member | source | states |
|---|---|---|
| SchedulerUtils.CheckForConflicts | teacher-scheduler-app/src/utils/schedulerUtils.ts:13-47 | true exactly when some entry with a different id is in the same clock hour and has the same teacher or the same (possibly absent) group |
| SchedulerUtils.SelfExclusion | teacher-scheduler-app/src/utils/schedulerUtils.ts:19-21 | removing the entries that carry the candidate's own id never changes the answer |
| SchedulerUtils.OnlySelfNoConflict | teacher-scheduler-app/src/utils/schedulerUtils.ts:19-21 | a list that holds only the candidate's own versions gives no conflict |
| SchedulerUtils.ConflictOrderIrrelevant | teacher-scheduler-app/src/utils/schedulerUtils.ts:17-46 | lists with the same members, whatever their order or multiplicity, give the same answer |
| SchedulerUtils.TeacherClash | teacher-scheduler-app/src/utils/schedulerUtils.ts:33-37 | same teacher, same hour, different id is a conflict whatever the groups |
| SchedulerUtils.GroupClash | teacher-scheduler-app/src/utils/schedulerUtils.ts:39-42 | same group value, same hour, different id is a conflict whatever the teachers, two group-less classes included |
| SchedulerUtils.DifferentHourNoClash | teacher-scheduler-app/src/utils/schedulerUtils.ts:30-32 | classes in different clock hours never clash, in either direction |
| SchedulerUtils.StampFormIrrelevant | teacher-scheduler-app/src/utils/schedulerUtils.ts:26-27 | a start given as ISO text and one given as a Date for the same instant give the same answer |
| SchedulerUtils.Int32 | teacher-scheduler-app/src/utils/schedulerUtils.ts:77 | ToInt32 lies in [-2^31, 2^31) and differs from its argument by a multiple of 2^32 |
| SchedulerUtils.Int32Congruent | teacher-scheduler-app/src/utils/schedulerUtils.ts:76-77 | numbers congruent modulo 2^32 have the same ToInt32 |
| SchedulerUtils.HashStepIsRolling | teacher-scheduler-app/src/utils/schedulerUtils.ts:76-77 | one round of `code + ((hash << 5) - hash)` then `hash & hash` is the rolling hash int32(31 * hash + code) |
| SchedulerUtils.ColorIndex | teacher-scheduler-app/src/utils/schedulerUtils.ts:79 | `Math.abs(hash) % 10` is a valid palette index |
| SchedulerUtils.GetTeacherColor | teacher-scheduler-app/src/utils/schedulerUtils.ts:69-81 | the default grey for an empty id; otherwise the palette entry at the absolute hash mod 10; always a seven-character colour starting with `#` |
| Clock.Weekday | teacher-scheduler-app/src/components/SchedulerCalendar.tsx:116 | `getDay()` is between 0 (Sunday) and 6 |
| Clock.HourOfDay | teacher-scheduler-app/src/components/SchedulerCalendar.tsx:118 | `getHours()` is between 0 and 23 |
| Clock.DropArithmetic | teacher-scheduler-app/src/components/SchedulerCalendar.tsx:47-52 | `setDay` with a Monday week start, `setHours`, then minutes, seconds and milliseconds set to 0 land on the given hour of the given weekday in the Monday-start week of the original time |
| Clock.SlotStartFields | teacher-scheduler-app/src/components/SchedulerCalendar.tsx:47-53 | that slot start reads back with the same week, the weekday, the hour and zero minutes, seconds and milliseconds |
| Text.SplitJoin | teacher-scheduler-app/src/components/SchedulerCalendar.tsx:42 | joining the pieces of `split` with the separator gives the input back |
| Text.SplitPiecesFree | teacher-scheduler-app/src/components/SchedulerCalendar.tsx:42 | no piece of `split` holds the separator |
| Text.SplitAtSeparator | teacher-scheduler-app/src/components/SchedulerCalendar.tsx:42-43 | a string with its first separator after `a` splits into `a` followed by the pieces of the rest |
| Text.TrimBlank | teacher-scheduler-app/src/components/SchedulerCalendar.tsx:134 | `trim()` gives the empty string exactly when every character is white space |
| Text.ToLowerAt | teacher-scheduler-app/src/components/SchedulerCalendar.tsx:135 | `toLowerCase` keeps the length, lower-cases each character, and a second pass changes nothing |
| Text.DigitPrefix | teacher-scheduler-app/src/components/SchedulerCalendar.tsx:43 | the digit run `parseInt` reads is the longest prefix of its input made of decimal digits only |
| Text.TwoDigits | teacher-scheduler-app/src/components/SchedulerCalendar.tsx:14 | `String(n).padStart(2, '0')` gives two decimal digits |
| Text.TwoDigitsValue | teacher-scheduler-app/src/components/SchedulerCalendar.tsx:14 | `parseInt` reads a two-digit label back as its number when no digit follows |
| SchedulerProvider.AppendKeepsConsistent | teacher-scheduler-app/src/context/SchedulerProvider.tsx:89-94 | appending a class with a fresh id that conflicts with nothing keeps ids unique and nothing double-booked |
| SchedulerProvider.ReplaceKeepsConsistent | teacher-scheduler-app/src/context/SchedulerProvider.tsx:100-103 | replacing by id with a class that conflicts with nothing keeps the length, the id at every position, and the schedule invariant |
| SchedulerProvider.FilterKeepsConsistent | teacher-scheduler-app/src/context/SchedulerProvider.tsx:108-110 | dropping classes keeps the schedule invariant |
| SchedulerProvider.ReplaceAbsentIsNoOp | teacher-scheduler-app/src/context/SchedulerProvider.tsx:103 | replacing by an id that no class carries changes nothing |
| SchedulerProvider.Scheduler.constructor | teacher-scheduler-app/src/context/SchedulerProvider.tsx:18-21 | the store starts with four empty collections |
| SchedulerProvider.Scheduler.AddScheduledClass | teacher-scheduler-app/src/context/SchedulerProvider.tsx:87-97 | the item with its fresh id is appended unless it conflicts, in which case the classes are unchanged; other collections untouched; the invariant is preserved |
| SchedulerProvider.Scheduler.UpdateScheduledClass | teacher-scheduler-app/src/context/SchedulerProvider.tsx:99-106 | unchanged on conflict; otherwise every entry with the id is replaced and the others, their order and the length stay; a no-op for an absent id; invariant preserved |
| SchedulerProvider.Scheduler.DeleteScheduledClass | teacher-scheduler-app/src/context/SchedulerProvider.tsx:108-110 | exactly the entries with the id go, the rest stay in order; a no-op for an absent id; invariant preserved |
| SchedulerProvider.Scheduler.AddTeacher | teacher-scheduler-app/src/context/SchedulerProvider.tsx:113-115 | appends with no uniqueness check; nothing else changes |
| SchedulerProvider.Scheduler.UpdateTeacher | teacher-scheduler-app/src/context/SchedulerProvider.tsx:117-119 | replaces every teacher with the id, position by position; a no-op for an absent id |
| SchedulerProvider.Scheduler.DeleteTeacher | teacher-scheduler-app/src/context/SchedulerProvider.tsx:121-126 | removes the teacher, every group it owns and every class it teaches, keeping order; students untouched; invariant preserved |
| SchedulerProvider.Scheduler.AddGroup | teacher-scheduler-app/src/context/SchedulerProvider.tsx:129-131 | appends with no uniqueness check; nothing else changes |
| SchedulerProvider.Scheduler.UpdateGroup | teacher-scheduler-app/src/context/SchedulerProvider.tsx:133-135 | replaces every group with the id, position by position; a no-op for an absent id |
| SchedulerProvider.Scheduler.DeleteGroup | teacher-scheduler-app/src/context/SchedulerProvider.tsx:137-141 | removes the group and every class booked for it; group-less and other classes, teachers and students stay |
| SchedulerProvider.Scheduler.AddStudent | teacher-scheduler-app/src/context/SchedulerProvider.tsx:144-146 | appends with no uniqueness check; nothing else changes |
| SchedulerProvider.Scheduler.UpdateStudent | teacher-scheduler-app/src/context/SchedulerProvider.tsx:148-150 | replaces every student with the id, position by position; a no-op for an absent id |
| SchedulerProvider.Scheduler.DeleteStudent | teacher-scheduler-app/src/context/SchedulerProvider.tsx:152-159 | removes the student and strips its id from every group's members; groups keep number, order and other fields; classes, the student's own included, untouched |
| SchedulerProvider.Scheduler.Snapshot | teacher-scheduler-app/src/context/SchedulerProvider.tsx:162-170 | the exported snapshot holds the four collections, version "1.0" and the given timestamp |
| SchedulerProvider.Scheduler.ImportData | teacher-scheduler-app/src/context/SchedulerProvider.tsx:174-179 | all four collections are replaced wholesale |
| SchedulerProvider.Scheduler.ClearAllData | teacher-scheduler-app/src/context/SchedulerProvider.tsx:181-189 | all four collections emptied when confirmed, nothing changed otherwise |
| SchedulerProvider.ExportImportRoundTrip | teacher-scheduler-app/src/context/SchedulerProvider.tsx:162-179 | importing an exported snapshot restores exactly the exported collections |
| SchedulerCalendar.DayNameToIndex | teacher-scheduler-app/src/components/SchedulerCalendar.tsx:9-11 | a known day name maps to a `getDay()` number 0..6 |
| SchedulerCalendar.DaysOfWeekIndices | teacher-scheduler-app/src/components/SchedulerCalendar.tsx:9-13 | column k (Monday first) is weekday (k + 1) % 7 and its name holds no `-` |
| SchedulerCalendar.SlotHour | teacher-scheduler-app/src/components/SchedulerCalendar.tsx:14 | row i is labelled `HH:00` for hour i + 8, which parses back to i + 8 and holds no `-` |
| SchedulerCalendar.FilterClasses | teacher-scheduler-app/src/components/SchedulerCalendar.tsx:59-65 | the classes that match the selected teacher and then the selected group, in their original order; no selection keeps everything |
| SchedulerCalendar.InRenderedCell | teacher-scheduler-app/src/components/SchedulerCalendar.tsx:112-119 | a class belongs to cell (k, i) exactly when it starts on weekday (k + 1) % 7 in hour i + 8 |
| SchedulerCalendar.ClassesInRenderedCell | teacher-scheduler-app/src/components/SchedulerCalendar.tsx:110-119 | a rendered cell holds exactly the filtered classes of its weekday and hour, in list order |
| SchedulerCalendar.CellPlacement | teacher-scheduler-app/src/components/SchedulerCalendar.tsx:107-119 | a class shows in some cell exactly when it starts between 08:00 and 20:59, and then in one cell only |
| SchedulerCalendar.GroupMapGet | teacher-scheduler-app/src/components/SchedulerCalendar.tsx:68 | the lookup finds a group with the class's group id, none exactly when no group has it |
| SchedulerCalendar.GroupMapGetLast | teacher-scheduler-app/src/components/SchedulerCalendar.tsx:68 | when several groups share the id, the map holds the last of them |
| SchedulerCalendar.HighlightOutcomes | teacher-scheduler-app/src/components/SchedulerCalendar.tsx:132-136 | no verdict exactly for an all-white-space query; false when the group is not found; true only when the group's lower-cased name contains the lower-cased query |
| SchedulerCalendar.HighlightFound | teacher-scheduler-app/src/components/SchedulerCalendar.tsx:132-136 | for a non-blank query and the group the map finds, the verdict is whether its lower-cased name contains the lower-cased query |
| SchedulerCalendar.HighlightIgnoresQueryCase | teacher-scheduler-app/src/components/SchedulerCalendar.tsx:134-135 | lower-casing the query first gives the same highlight |
| SchedulerCalendar.ParseCellTarget | teacher-scheduler-app/src/components/SchedulerCalendar.tsx:41-45 | a well-formed cell target names a weekday 0..6 |
| SchedulerCalendar.CellIdParts | teacher-scheduler-app/src/components/SchedulerCalendar.tsx:42 | a cell id starts with `cell-` and splits into "cell", the day and the time |
| SchedulerCalendar.CellIdRoundTrip | teacher-scheduler-app/src/components/SchedulerCalendar.tsx:111 | every rendered cell id reads back as that cell's weekday and hour |
| SchedulerCalendar.TwoPartIdThrows | teacher-scheduler-app/src/components/SchedulerCalendar.tsx:42-43 | a cell id with no time part makes the drop throw while reading the time |
| SchedulerCalendar.FindClass | teacher-scheduler-app/src/components/SchedulerCalendar.tsx:38 | `find` returns a class in the list with the id, nothing exactly when no class has it |
| SchedulerCalendar.FindClassFirst | teacher-scheduler-app/src/components/SchedulerCalendar.tsx:38 | `find` returns the first class with the id |
| SchedulerCalendar.DropUpdate | teacher-scheduler-app/src/components/SchedulerCalendar.tsx:34-56 | no update for a missing or unmoved destination, an unknown class, a non-cell target, an unknown day or a non-numeric hour; a throw for a two-part id; otherwise one update of the class with its id, teacher, group and student kept |
| SchedulerCalendar.RebuildStart | teacher-scheduler-app/src/components/SchedulerCalendar.tsx:47-52 | the setter chain gives the target hour of the target weekday in the class's Monday-start week |
| SchedulerCalendar.DropLandsInCell | teacher-scheduler-app/src/components/SchedulerCalendar.tsx:47-55 | a class dropped on a rendered cell keeps its week, takes the cell's weekday and hour on the hour, ends one hour later and shows in that cell |
| SchedulerCalendar.OnDragEnd | teacher-scheduler-app/src/components/SchedulerCalendar.tsx:34-57 | the store changes only through one update call, which still refuses a conflicting move; other collections untouched; invariant preserved |
| TextReportView.IndexOfName | teacher-scheduler-app/src/components/TextReportView.tsx:23 | `indexOf` gives the first position of the name, or -1 exactly when absent |
| TextReportView.DistinctDayNames | teacher-scheduler-app/src/components/TextReportView.tsx:23 | the seven Sunday-first names are pairwise different |
| TextReportView.DayIndex | teacher-scheduler-app/src/components/TextReportView.tsx:13-23 | section k (Monday first) looks up weekday (k + 1) % 7 |
| TextReportView.DayIndexOfColumn | teacher-scheduler-app/src/components/TextReportView.tsx:23 | the `dayIndex` of section k is (k + 1) % 7 |
| TextReportView.InsertPermutes | teacher-scheduler-app/src/components/TextReportView.tsx:30-34 | inserting adds exactly the one class |
| TextReportView.InsertSorted | teacher-scheduler-app/src/components/TextReportView.tsx:30-34 | inserting into a list sorted by start keeps it sorted |
| TextReportView.InsertStable | teacher-scheduler-app/src/components/TextReportView.tsx:30-34 | the inserted class comes before the classes of the sorted list that start at the same instant |
| TextReportView.SortByStartPermutes | teacher-scheduler-app/src/components/TextReportView.tsx:30-34 | sorting is a permutation |
| TextReportView.SortByStartSorted | teacher-scheduler-app/src/components/TextReportView.tsx:30-34 | sorting orders by ascending start time |
| TextReportView.SortByStartStable | teacher-scheduler-app/src/components/TextReportView.tsx:30-34 | sorting keeps the input order among classes with equal starts |
| TextReportView.SortedStableEqual | teacher-scheduler-app/src/components/TextReportView.tsx:30-34 | two lists sorted by start with the same classes at every instant in the same order are equal |
| TextReportView.SortByStartUnique | teacher-scheduler-app/src/components/TextReportView.tsx:30-34 | any result sorted by start that keeps the input order among equal starts, which a stable sort with `timeA - timeB` gives, is the modelled order |
| TextReportView.InsertFirst | teacher-scheduler-app/src/components/TextReportView.tsx:30-34 | one insertion pass in place: the prefix stays and the suffix becomes the first class inserted into the rest |
| TextReportView.SortByStartInPlace | teacher-scheduler-app/src/components/TextReportView.tsx:30-34 | the array in place becomes the stable sort by start of its old contents |
| TextReportView.SortedCopy | teacher-scheduler-app/src/components/TextReportView.tsx:24-34 | the filtered copy, sorted, is the stable sort by start of the day's classes |
| TextReportView.DaySectionSpec | teacher-scheduler-app/src/components/TextReportView.tsx:24-34 | a day's sorted classes are sorted, a permutation of the day's classes, and hold exactly the classes of that weekday |
| TextReportView.SectionsCoverAll | teacher-scheduler-app/src/components/TextReportView.tsx:22-37 | seven sections that each hold their weekday's classes together hold every class exactly once |
| TextReportView.SectionsEmpty | teacher-scheduler-app/src/components/TextReportView.tsx:22-37 | such sections are all empty exactly when there are no classes |
| TextReportView.SectionsPartition | teacher-scheduler-app/src/components/TextReportView.tsx:22-37 | each section holds exactly its weekday's classes, sorted; their concatenation is a permutation of the input; all are empty exactly when the input is |
| TextReportView.ClassesByDay | teacher-scheduler-app/src/components/TextReportView.tsx:22-37 | seven sections, Monday first, named in order, section k holding the stable sort by start of the classes of weekday (k + 1) % 7; the input list is a value and stays as it was |
| TextReportView.ReportNeverBlank | teacher-scheduler-app/src/components/TextReportView.tsx:106 | the placeholder shows exactly when no section does (sections with no classes are skipped at line 46) |
| SchedulerUtils.Clashes | teacher-scheduler-app/src/utils/schedulerUtils.ts:30-42 | definition of one entry blocking the candidate: another id, the same clock hour, and the same teacher or the same optional group; its consequences are stated by TeacherClash, GroupClash and DifferentHourNoClash |
| SchedulerUtils.ConflictsWith | teacher-scheduler-app/src/utils/schedulerUtils.ts:17-46 | definition of the conflict answer as some entry clashing; CheckForConflicts is proved equal to it |
| SchedulerUtils.HashStep | teacher-scheduler-app/src/utils/schedulerUtils.ts:76-77 | definition of one loop round of the hash with its 32-bit wraps; HashStepIsRolling states what it computes |
| SchedulerUtils.Hash | teacher-scheduler-app/src/utils/schedulerUtils.ts:74-78 | definition of the hash of a whole id as HashStep folded over its characters; GetTeacherColor's loop is proved to compute it |
| Clock.HourBucket | teacher-scheduler-app/src/utils/schedulerUtils.ts:30 | definition of `isSameHour` as equal hour numbers since the epoch; DifferentHourNoClash and CellPlacement use it |
| Clock.SetDay | teacher-scheduler-app/src/components/SchedulerCalendar.tsx:48 | definition of `setDay` with a Monday week start; DropArithmetic states the whole setter chain |
| Clock.SetHours | teacher-scheduler-app/src/components/SchedulerCalendar.tsx:49 | definition of `setHours` on UTC milliseconds; covered by DropArithmetic |
| Clock.SetMinutes | teacher-scheduler-app/src/components/SchedulerCalendar.tsx:50 | definition of `setMinutes`; covered by DropArithmetic |
| Clock.SetSeconds | teacher-scheduler-app/src/components/SchedulerCalendar.tsx:51 | definition of `setSeconds`; covered by DropArithmetic |
| Clock.SetMilliseconds | teacher-scheduler-app/src/components/SchedulerCalendar.tsx:52 | definition of `setMilliseconds`; covered by DropArithmetic |
| Clock.AddHours | teacher-scheduler-app/src/components/SchedulerCalendar.tsx:53 | definition of `addHours`; DropLandsInCell states the end one hour after the start |
| Clock.SlotStart | teacher-scheduler-app/src/components/SchedulerCalendar.tsx:47-52 | closed form of the instant the setter chain reaches; its fields are stated by SlotStartFields |
| Text.Split | teacher-scheduler-app/src/components/SchedulerCalendar.tsx:42 | definition of `split` on one character; SplitJoin, SplitPiecesFree and SplitAtSeparator state its meaning |
| Text.ParseInt | teacher-scheduler-app/src/components/SchedulerCalendar.tsx:43 | definition of `parseInt(…, 10)` over the longest digit prefix after leading white space and an optional sign, none when no digit is read; TwoDigitsValue and CellIdRoundTrip use it |
| Text.Trim | teacher-scheduler-app/src/components/SchedulerCalendar.tsx:134 | definition of `trim()`; TrimBlank states when it is empty |
| Text.ToLower | teacher-scheduler-app/src/components/SchedulerCalendar.tsx:135 | definition of `toLowerCase`; ToLowerAt states its meaning |
| Text.Includes | teacher-scheduler-app/src/components/SchedulerCalendar.tsx:135 | definition of `includes` as an occurrence at some position |
| Seqs.Filter | teacher-scheduler-app/src/components/SchedulerCalendar.tsx:60-65 | definition of `Array.prototype.filter`; FilterClasses and the section lemmas state its results |
| Seqs.Map | teacher-scheduler-app/src/context/SchedulerProvider.tsx:103 | definition of `Array.prototype.map` |
| SchedulerProvider.ReplaceClass | teacher-scheduler-app/src/context/SchedulerProvider.tsx:103 | definition of the replace-by-id `map`; ReplaceKeepsConsistent and ReplaceAbsentIsNoOp state its properties |
| SchedulerCalendar.Truthy | teacher-scheduler-app/src/components/SchedulerCalendar.tsx:60-65 | definition of a truthy filter selection: present and not the empty string |
| SchedulerCalendar.PassesFilters | teacher-scheduler-app/src/components/SchedulerCalendar.tsx:60-65 | definition of the two filters as one test; FilterClasses is proved to keep exactly the passing classes |
| SchedulerCalendar.TimeSlot | teacher-scheduler-app/src/components/SchedulerCalendar.tsx:14 | definition of the `TIME_SLOTS` label of row i; SlotHour states its meaning |
| SchedulerCalendar.CellId | teacher-scheduler-app/src/components/SchedulerCalendar.tsx:111 | definition of the droppable id `cell-<day>-<time>`; CellIdParts and CellIdRoundTrip state its meaning |
| SchedulerCalendar.CellHour | teacher-scheduler-app/src/components/SchedulerCalendar.tsx:112 | definition of the cell's hour as `parseInt` of the text before `:`; SlotHour states its value |
| SchedulerCalendar.InCell | teacher-scheduler-app/src/components/SchedulerCalendar.tsx:114-119 | definition of the `classesInCell` test; InRenderedCell states it for rendered cells |
| SchedulerCalendar.ClassesInCell | teacher-scheduler-app/src/components/SchedulerCalendar.tsx:114-119 | definition of `classesInCell`; ClassesInRenderedCell and CellPlacement state its meaning |
| SchedulerCalendar.IsHighlighted | teacher-scheduler-app/src/components/SchedulerCalendar.tsx:132-136 | definition of `isHighlighted`; HighlightOutcomes, HighlightFound and HighlightIgnoresQueryCase state its outcomes |
| SchedulerCalendar.IsDropEffect | teacher-scheduler-app/src/components/SchedulerCalendar.tsx:34-56 | the relation between a drop and the store update it causes; DropUpdate is proved to produce it |
| TextReportView.DayClasses | teacher-scheduler-app/src/components/TextReportView.tsx:24-27 | definition of the weekday filter of one section; DaySectionSpec states its contents |
| TextReportView.SortByStart | teacher-scheduler-app/src/components/TextReportView.tsx:30-34 | definition of the stable sort by start; the SortByStart lemmas state its meaning |

## Left out

- Browser storage, file export and import, the load and auto-save effects and the seed data are transport and setup only. They are not part of this model.
- SchedulerProvider.Scheduler.ImportData: installs the imported classes without a conflict or id check, as the source's import does, so it does not promise the schedule invariant.
- Import validation happens in the storage helpers, which are not part of this model. `importData` takes an already parsed snapshot.
- Time zones and daylight saving are not modelled. Every `Date` reading (`getDay`, `getHours`, `isSameHour`, the setters) is done in UTC on integer milliseconds.
- Invalid dates (NaN times) are not modelled.
- ISO text stamps are not parsed. A text stamp carries the instant it denotes.
- `console.log` calls are output only and are left out.
- React rendering, hooks and the drag-and-drop visuals are left out. The report's per-class lines (teacher, group and student names) are left out too.
- `Date.now()` in the generated class id is not modelled. `AddScheduledClass` takes the new id as a parameter that must be fresh.
- `addScheduledClass` checks conflicts against the list at render time and appends to the latest list. The model treats both as the same list, so batched state updates are not modelled.
- `window.confirm` becomes the `confirmed` parameter of `ClearAllData`.
- `Snapshot` stops at the data object. Writing it to a file is left out.
- SchedulerUtils.GetTeacherColor: takes a string, so a `null` or `undefined` id (also mapped to the default colour in the source) is not modelled.
- `charCodeAt` reads UTF-16 code units. The model treats each `char` as one unit, so characters outside the Basic Multilingual Plane are not modelled.
- `toLowerCase` is modelled for Basic Latin and the basic Cyrillic block only.
- A day name that is an inherited object key (such as `constructor`) is treated as unknown. In the source, the `DAY_NAME_TO_INDEX` lookup would return a function there.
- `parseInt` results are exact integers. Precision loss above 2^53 is not modelled.
- TextReportView.SortByStartInPlace: sorts by insertion, not by the engine's algorithm. Any stable sort by `timeA - timeB` gives the same array (`TextReportView.SortByStartUnique`).
- TextReportView.ClassesByDay: its contract names each section's contents through `SortByStart`. What the sections then mean (partition, order, permutation, emptiness) is stated by `TextReportView.SectionsPartition`, which the method's result meets.
