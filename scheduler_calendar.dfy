/** The week grid (teacher-scheduler-app/src/components/SchedulerCalendar.tsx):
    its day and time axes, the teacher and group filters, which classes sit in
    which cell, the search highlight and rescheduling by drag and drop. */
module SchedulerCalendar {
  import opened Types
  import opened Clock
  import opened Text
  import Seqs
  import SchedulerUtils
  import SchedulerProvider

  /** `DAY_NAME_TO_INDEX`: English day names to `getDay()` numbers. */
  function DayNameToIndex(name: string): (r: Option<int>)
    ensures r.Some? ==> 0 <= r.value < 7
  {
    if name == "Sunday" then Some(0)
    else if name == "Monday" then Some(1)
    else if name == "Tuesday" then Some(2)
    else if name == "Wednesday" then Some(3)
    else if name == "Thursday" then Some(4)
    else if name == "Friday" then Some(5)
    else if name == "Saturday" then Some(6)
    else None
  }

  /** The grid's columns, Monday first. */
  const DAYS_OF_WEEK: seq<string> :=
    ["Monday", "Tuesday", "Wednesday", "Thursday", "Friday", "Saturday", "Sunday"]

  /** Row `i` of the grid: the hour `i + 8` written as `HH:00`. */
  function TimeSlot(i: int): string
    requires 0 <= i < 13
  {
    TwoDigits(i + 8) + ":00"
  }

  /** `TIME_SLOTS`: thirteen rows, 08:00 through 20:00. */
  const TIME_SLOTS: seq<string> := seq(13, i requires 0 <= i < 13 => TimeSlot(i))

  /** The hour a time label stands for: `parseInt(time.split(':')[0], 10)`. */
  function CellHour(time: string): Option<int>
  {
    ParseInt(Split(time, ':')[0])
  }

  /** The droppable id of the cell for `day` and `time`. */
  function CellId(day: string, time: string): string
  {
    "cell-" + day + "-" + time
  }

  /** Column `k` is the day `(k + 1) % 7` of `getDay()`, so the columns cover
      every weekday once. */
  lemma DaysOfWeekIndices()
    ensures |DAYS_OF_WEEK| == 7
    ensures forall k :: 0 <= k < 7 ==> DayNameToIndex(DAYS_OF_WEEK[k]) == Some((k + 1) % 7)
    ensures forall k :: 0 <= k < 7 ==> '-' !in DAYS_OF_WEEK[k]
  {
  }

  /** Row `i` reads back as the hour `i + 8` and holds no `-`. */
  lemma {:induction false} SlotHour(i: int)
    requires 0 <= i < 13
    ensures |TIME_SLOTS| == 13 && TIME_SLOTS[i] == TimeSlot(i)
    ensures CellHour(TIME_SLOTS[i]) == Some(i + 8)
    ensures '-' !in TIME_SLOTS[i]
  {
    var hh := TwoDigits(i + 8);
    assert TIME_SLOTS[i] == hh + [':'] + "00";
    SplitAtSeparator(hh, ':', "00");
    assert Split(TIME_SLOTS[i], ':')[0] == hh;
    TwoDigitsValue(i + 8, []);
    assert hh + [] == hh;
  }

  // ---------------------------------------------------------------------------
  // Filters and cells

  /** JavaScript truthiness of a selected id: set and not empty. */
  predicate Truthy(selected: Option<string>)
  {
    selected.Some? && selected.value != ""
  }

  /** A class survives the teacher filter and then the group filter. */
  predicate PassesFilters(c: ScheduledClass, selectedTeacherId: Option<string>, selectedGroupId: Option<string>)
  {
    && (!Truthy(selectedTeacherId) || c.teacherId == selectedTeacherId.value)
    && (!Truthy(selectedGroupId) || c.groupId == Some(selectedGroupId.value))
  }

  /** `currentFilteredClasses`: the class list, narrowed by the selected
      teacher and then by the selected group. */
  method FilterClasses(scheduledClasses: seq<ScheduledClass>, selectedTeacherId: Option<string>,
                       selectedGroupId: Option<string>)
    returns (currentFilteredClasses: seq<ScheduledClass>)
    ensures currentFilteredClasses ==
      Seqs.Filter(scheduledClasses, (c: ScheduledClass) => PassesFilters(c, selectedTeacherId, selectedGroupId))
    ensures forall c :: c in currentFilteredClasses <==>
      c in scheduledClasses && PassesFilters(c, selectedTeacherId, selectedGroupId)
    ensures Seqs.IsSubsequence(currentFilteredClasses, scheduledClasses)
    ensures !Truthy(selectedTeacherId) && !Truthy(selectedGroupId) ==> currentFilteredClasses == scheduledClasses
  {
    var byTeacher := (cls: ScheduledClass) => !Truthy(selectedTeacherId) || cls.teacherId == selectedTeacherId.value;
    var byGroup := (cls: ScheduledClass) => !Truthy(selectedGroupId) || cls.groupId == Some(selectedGroupId.value);
    var both := (c: ScheduledClass) => PassesFilters(c, selectedTeacherId, selectedGroupId);
    Seqs.FilterTwice(scheduledClasses, byTeacher, byGroup, both);
    Seqs.FilterMembers(scheduledClasses, both);
    Seqs.FilterKeepsOrder(scheduledClasses, both);
    currentFilteredClasses := scheduledClasses;
    if Truthy(selectedTeacherId) {
      var teacherMatches := (cls: ScheduledClass) => cls.teacherId == selectedTeacherId.value;
      Seqs.FilterCongruent(scheduledClasses, byTeacher, teacherMatches);
      currentFilteredClasses := Seqs.Filter(currentFilteredClasses, teacherMatches);
    } else {
      Seqs.FilterKeepsAll(scheduledClasses, byTeacher);
    }
    if Truthy(selectedGroupId) {
      var groupMatches := (cls: ScheduledClass) => cls.groupId == Some(selectedGroupId.value);
      Seqs.FilterCongruent(currentFilteredClasses, byGroup, groupMatches);
      currentFilteredClasses := Seqs.Filter(currentFilteredClasses, groupMatches);
    } else {
      Seqs.FilterKeepsAll(currentFilteredClasses, byGroup);
    }
    if !Truthy(selectedTeacherId) && !Truthy(selectedGroupId) {
      Seqs.FilterKeepsAll(scheduledClasses, both);
    }
  }

  /** The `classesInCell` test: the class starts on the cell's weekday and
      in the cell's hour. */
  predicate InCell(sc: ScheduledClass, day: string, time: string)
  {
    DayNameToIndex(day) == Some(Weekday(Start(sc))) && CellHour(time) == Some(HourOfDay(Start(sc)))
  }

  function ClassesInCell(filtered: seq<ScheduledClass>, day: string, time: string): seq<ScheduledClass>
  {
    Seqs.Filter(filtered, (sc: ScheduledClass) => InCell(sc, day, time))
  }

  /** A rendered cell holds exactly the filtered classes of its weekday and
      hour, in list order. */
  lemma {:induction false} ClassesInRenderedCell(filtered: seq<ScheduledClass>, k: int, i: int)
    requires 0 <= k < 7 && 0 <= i < 13
    ensures forall sc :: sc in ClassesInCell(filtered, DAYS_OF_WEEK[k], TIME_SLOTS[i]) <==>
      sc in filtered && Weekday(Start(sc)) == (k + 1) % 7 && HourOfDay(Start(sc)) == i + 8
    ensures Seqs.IsSubsequence(ClassesInCell(filtered, DAYS_OF_WEEK[k], TIME_SLOTS[i]), filtered)
  {
    DaysOfWeekIndices();
    SlotHour(i);
    var inCell := (sc: ScheduledClass) => InCell(sc, DAYS_OF_WEEK[k], TIME_SLOTS[i]);
    Seqs.FilterMembers(filtered, inCell);
    Seqs.FilterKeepsOrder(filtered, inCell);
  }

  /** Cell (column `k`, row `i`) takes the classes of weekday `(k + 1) % 7`
      and hour `i + 8`. */
  lemma InRenderedCell(sc: ScheduledClass, k: int, i: int)
    requires 0 <= k < 7 && 0 <= i < 13
    ensures InCell(sc, DAYS_OF_WEEK[k], TIME_SLOTS[i]) <==>
      Weekday(Start(sc)) == (k + 1) % 7 && HourOfDay(Start(sc)) == i + 8
  {
    DaysOfWeekIndices();
    SlotHour(i);
  }

  /** A class appears in some cell of the grid exactly when it starts between
      08:00 and 20:59, and then in only one. */
  lemma {:induction false} CellPlacement(sc: ScheduledClass)
    ensures (exists k, i :: 0 <= k < 7 && 0 <= i < 13 && InCell(sc, DAYS_OF_WEEK[k], TIME_SLOTS[i]))
            <==> 8 <= HourOfDay(Start(sc)) <= 20
    ensures forall k1, i1, k2, i2 ::
      0 <= k1 < 7 && 0 <= i1 < 13 && 0 <= k2 < 7 && 0 <= i2 < 13 &&
      InCell(sc, DAYS_OF_WEEK[k1], TIME_SLOTS[i1]) && InCell(sc, DAYS_OF_WEEK[k2], TIME_SLOTS[i2])
      ==> k1 == k2 && i1 == i2
  {
    var d, h := Weekday(Start(sc)), HourOfDay(Start(sc));
    forall k, i | 0 <= k < 7 && 0 <= i < 13
      ensures InCell(sc, DAYS_OF_WEEK[k], TIME_SLOTS[i]) <==> k == MondayIndex(d) && i == h - 8
    {
      InRenderedCell(sc, k, i);
      ColumnOfWeekday(k, d);
    }
    if 8 <= h <= 20 {
      assert InCell(sc, DAYS_OF_WEEK[MondayIndex(d)], TIME_SLOTS[h - 8]);
    }
  }

  /** Column `k` shows weekday `d` exactly when `k` is `d`'s Monday-first index. */
  lemma ColumnOfWeekday(k: int, d: int)
    requires 0 <= k < 7 && 0 <= d < 7
    ensures (k + 1) % 7 == d <==> k == MondayIndex(d)
  {
    if k == 6 {
      assert (k + 1) % 7 == 0;
    } else {
      assert (k + 1) % 7 == k + 1;
    }
    if d == 0 {
      assert MondayIndex(d) == 6;
    } else {
      assert MondayIndex(d) == d - 1;
    }
  }

  // ---------------------------------------------------------------------------
  // Search highlight

  /** `groupMap.get(key)` for the map built from `groups`: the last group
      with that id wins; a class without a group finds none. */
  function GroupMapGet(groups: seq<Group>, key: Option<string>): (r: Option<Group>)
    ensures r.Some? ==> r.value in groups && key == Some(r.value.id)
    ensures r.None? <==> forall g :: g in groups ==> key != Some(g.id)
  {
    if groups == [] then None
    else if key == Some(groups[|groups| - 1].id) then Some(groups[|groups| - 1])
    else
      var r := GroupMapGet(groups[..|groups| - 1], key);
      assert groups == groups[..|groups| - 1] + [groups[|groups| - 1]];
      r
  }

  /** When ids repeat, the map holds the last group with the key's id. */
  lemma GroupMapGetLast(groups: seq<Group>, key: Option<string>, j: nat)
    requires j < |groups| && key == Some(groups[j].id)
    requires forall k :: j < k < |groups| ==> key != Some(groups[k].id)
    ensures GroupMapGet(groups, key) == Some(groups[j])
  {
  }

  /** `isHighlighted`: no verdict for a blank query; otherwise whether the
      class's group name contains the query, both lower-cased, and false
      when the group is not found. */
  function IsHighlighted(groups: seq<Group>, sc: ScheduledClass, searchQuery: string): Option<bool>
  {
    if Trim(searchQuery) == "" then None
    else
      match GroupMapGet(groups, sc.groupId)
      case None => Some(false)
      case Some(group) => Some(Includes(ToLower(group.name), ToLower(searchQuery)))
  }

  /** The three outcomes of the highlight. */
  lemma HighlightOutcomes(groups: seq<Group>, sc: ScheduledClass, searchQuery: string)
    ensures IsHighlighted(groups, sc, searchQuery).None? <==>
      forall k :: 0 <= k < |searchQuery| ==> IsWhiteSpace(searchQuery[k])
    ensures (forall g :: g in groups ==> sc.groupId != Some(g.id)) && Trim(searchQuery) != "" ==>
      IsHighlighted(groups, sc, searchQuery) == Some(false)
    ensures IsHighlighted(groups, sc, searchQuery) == Some(true) ==>
      exists g :: g in groups && sc.groupId == Some(g.id) && Includes(ToLower(g.name), ToLower(searchQuery))
  {
    TrimBlank(searchQuery);
  }

  /** For a non-blank query and the group the map finds, the verdict is
      whether the lower-cased group name contains the lower-cased query. */
  lemma HighlightFound(groups: seq<Group>, sc: ScheduledClass, searchQuery: string, g: Group)
    requires Trim(searchQuery) != "" && GroupMapGet(groups, sc.groupId) == Some(g)
    ensures IsHighlighted(groups, sc, searchQuery) == Some(Includes(ToLower(g.name), ToLower(searchQuery)))
  {
  }

  /** Lower-casing maps white space to itself and nothing else to white space. */
  lemma LowerCharWhiteSpace(c: char)
    ensures IsWhiteSpace(LowerChar(c)) <==> IsWhiteSpace(c)
  {
  }

  /** The highlight ignores the case of the query. */
  lemma {:induction false} HighlightIgnoresQueryCase(groups: seq<Group>, sc: ScheduledClass, searchQuery: string)
    ensures IsHighlighted(groups, sc, ToLower(searchQuery)) == IsHighlighted(groups, sc, searchQuery)
  {
    var lower := ToLower(searchQuery);
    ToLowerAt(searchQuery);
    TrimBlank(searchQuery);
    TrimBlank(lower);
    forall k | 0 <= k < |searchQuery|
      ensures IsWhiteSpace(lower[k]) <==> IsWhiteSpace(searchQuery[k])
    {
      LowerCharWhiteSpace(searchQuery[k]);
    }
  }

  // ---------------------------------------------------------------------------
  // Drag and drop

  datatype DraggableLocation = DraggableLocation(droppableId: string, index: int)

  datatype DropResult = DropResult(
    draggableId: string,
    source: DraggableLocation,
    destination: Option<DraggableLocation>)

  /** What a drop does: nothing, a `TypeError` while reading the target, or
      one call of the store's update with the rescheduled class. */
  datatype DropEffect = NoUpdate | Throws | Update(updated: ScheduledClass)

  /** How `onDragEnd` reads a droppable id. */
  datatype CellTarget = NotACell | MissingTime | Unknown | Cell(day: int, hour: int)

  function ParseCellTarget(droppableId: string): (t: CellTarget)
    ensures t.Cell? ==> 0 <= t.day < 7
  {
    if !StartsWith(droppableId, "cell-") then NotACell
    else
      var parts := Split(droppableId, '-');
      if |parts| < 3 then MissingTime
      else
        var hour := CellHour(parts[2]);
        var dayIndex := DayNameToIndex(parts[1]);
        if dayIndex.None? || hour.None? then Unknown
        else Cell(dayIndex.value, hour.value)
  }

  /** A cell id whose day and time hold no `-` splits into "cell", the day
      and the time. */
  lemma {:induction false} CellIdParts(day: string, time: string)
    requires '-' !in day && '-' !in time
    ensures StartsWith(CellId(day, time), "cell-")
    ensures Split(CellId(day, time), '-') == ["cell", day, time]
  {
    var id := CellId(day, time);
    assert id == "cell" + ['-'] + (day + ['-'] + time);
    assert id[..5] == "cell-";
    SplitAtSeparator("cell", '-', day + ['-'] + time);
    SplitAtSeparator(day, '-', time);
    assert Split(time, '-') == [time];
  }

  /** The id of every rendered cell reads back as that cell's weekday and hour. */
  lemma {:induction false} CellIdRoundTrip(k: int, i: int)
    requires 0 <= k < 7 && 0 <= i < 13
    ensures ParseCellTarget(CellId(DAYS_OF_WEEK[k], TIME_SLOTS[i])) == Cell((k + 1) % 7, i + 8)
  {
    DaysOfWeekIndices();
    SlotHour(i);
    CellIdParts(DAYS_OF_WEEK[k], TIME_SLOTS[i]);
  }

  /** A cell id with only two parts, such as `cell-Monday`, makes
      `onDragEnd` throw while reading the time. */
  lemma {:induction false} TwoPartIdThrows(day: string)
    requires '-' !in day
    ensures ParseCellTarget("cell-" + day) == MissingTime
  {
    var id := "cell-" + day;
    assert id == "cell" + ['-'] + day;
    assert id[..5] == "cell-";
    SplitAtSeparator("cell", '-', day);
  }

  /** `scheduledClasses.find(sc => sc.id === id)`. */
  function FindClass(scheduledClasses: seq<ScheduledClass>, id: string): (r: Option<ScheduledClass>)
    ensures r.Some? ==> r.value in scheduledClasses && r.value.id == id
    ensures r.None? <==> id !in SchedulerProvider.ClassIds(scheduledClasses)
  {
    if scheduledClasses == [] then None
    else if scheduledClasses[0].id == id then Some(scheduledClasses[0])
    else
      assert scheduledClasses == [scheduledClasses[0]] + scheduledClasses[1..];
      FindClass(scheduledClasses[1..], id)
  }

  /** `find` returns the first entry with the id. */
  lemma {:induction false} FindClassFirst(scheduledClasses: seq<ScheduledClass>, id: string, k: int)
    requires 0 <= k < |scheduledClasses| && scheduledClasses[k].id == id
    requires forall j :: 0 <= j < k ==> scheduledClasses[j].id != id
    ensures FindClass(scheduledClasses, id) == Some(scheduledClasses[k])
  {
    if k > 0 {
      FindClassFirst(scheduledClasses[1..], id, k - 1);
    }
  }

  /** The drop lands somewhere other than where it started. */
  predicate Moved(result: DropResult)
  {
    && result.destination.Some?
    && !(result.source.droppableId == result.destination.value.droppableId
         && result.source.index == result.destination.value.index)
  }

  /** What `onDragEnd` does with `result` against `scheduledClasses`: no
      update unless the drop moved a known class onto a well-formed cell; a
      two-part cell id throws; otherwise one update that keeps the class's
      id, teacher, group and student, starts on the hour `hour` of weekday
      `day` in the same Monday-start week, and ends one hour later. */
  ghost predicate IsDropEffect(result: DropResult, scheduledClasses: seq<ScheduledClass>, effect: DropEffect)
  {
    var dragged := FindClass(scheduledClasses, result.draggableId);
    if !Moved(result) || dragged.None? then effect == NoUpdate
    else
      match ParseCellTarget(result.destination.value.droppableId)
      case MissingTime => effect == Throws
      case Cell(day, hour) =>
        var start := SlotStart(WeekNumber(Start(dragged.value)), day, hour);
        effect == Update(dragged.value.(startTime := DateValue(start), endTime := DateValue(start + MS_PER_HOUR)))
      case _ => effect == NoUpdate
  }

  /** `onDragEnd` up to the call of the store: the guards, then the start
      time rebuilt step by step with the date setters. */
  method DropUpdate(result: DropResult, scheduledClasses: seq<ScheduledClass>) returns (effect: DropEffect)
    ensures IsDropEffect(result, scheduledClasses, effect)
    ensures effect.Update? ==> effect.updated.id == result.draggableId
  {
    if result.destination.None? ||
       (result.source.droppableId == result.destination.value.droppableId &&
        result.source.index == result.destination.value.index) {
      return NoUpdate;
    }
    var draggedClass := FindClass(scheduledClasses, result.draggableId);
    if draggedClass.None? {
      return NoUpdate;
    }
    var target := ParseCellTarget(result.destination.value.droppableId);
    if target.NotACell? || target.Unknown? {
      return NoUpdate;
    }
    if target.MissingTime? {
      return Throws;
    }
    var newStartTime := RebuildStart(Instant(draggedClass.value.startTime), target.day, target.hour);
    var newEndTime := AddHours(newStartTime, 1);
    var updatedClass := draggedClass.value.(startTime := DateValue(newStartTime), endTime := DateValue(newEndTime));
    effect := Update(updatedClass);
  }

  /** The date setters of `onDragEnd` in order: weekday, hour, then minutes,
      seconds and milliseconds cleared. The result is hour `hour` of weekday
      `day` in the Monday-start week of `t`. */
  method RebuildStart(t: int, day: int, hour: int) returns (newStartTime: int)
    requires 0 <= day < 7
    ensures newStartTime == SlotStart(WeekNumber(t), day, hour)
  {
    newStartTime := SetDay(t, day);
    newStartTime := SetHours(newStartTime, hour);
    newStartTime := SetMinutes(newStartTime, 0);
    newStartTime := SetSeconds(newStartTime, 0);
    newStartTime := SetMilliseconds(newStartTime, 0);
    DropArithmetic(t, day, hour);
  }

  /** A class dropped on a rendered cell starts in that cell: same
      Monday-start week, the cell's weekday and hour, on the hour, and the
      grid shows it in that cell and no other. */
  lemma {:induction false} DropLandsInCell(result: DropResult, scheduledClasses: seq<ScheduledClass>,
                                           effect: DropEffect, k: int, i: int)
    requires 0 <= k < 7 && 0 <= i < 13
    requires IsDropEffect(result, scheduledClasses, effect) && effect.Update?
    requires result.destination.Some? && result.destination.value.droppableId == CellId(DAYS_OF_WEEK[k], TIME_SLOTS[i])
    ensures var s := Start(effect.updated);
      && WeekNumber(s) == WeekNumber(Start(FindClass(scheduledClasses, result.draggableId).value))
      && Weekday(s) == (k + 1) % 7 && HourOfDay(s) == i + 8
      && MinuteOfHour(s) == 0 && SecondOfMinute(s) == 0 && MillisecondOfSecond(s) == 0
      && Instant(effect.updated.endTime) == s + MS_PER_HOUR
    ensures InCell(effect.updated, DAYS_OF_WEEK[k], TIME_SLOTS[i])
  {
    CellIdRoundTrip(k, i);
    var dragged := FindClass(scheduledClasses, result.draggableId).value;
    SlotStartFields(WeekNumber(Start(dragged)), (k + 1) % 7, i + 8);
    DaysOfWeekIndices();
    SlotHour(i);
  }

  /** `onDragEnd` with the store: compute the drop, then hand a rescheduled
      class to `updateScheduledClass`, which may still refuse it on a conflict. */
  method OnDragEnd(store: SchedulerProvider.Scheduler, result: DropResult) returns (effect: DropEffect)
    modifies store
    ensures IsDropEffect(result, old(store.scheduledClasses), effect)
    ensures effect.Update? ==>
      (store.scheduledClasses ==
        if SchedulerUtils.ConflictsWith(effect.updated, old(store.scheduledClasses)) then old(store.scheduledClasses)
        else SchedulerProvider.ReplaceClass(old(store.scheduledClasses), effect.updated))
    ensures !effect.Update? ==> store.scheduledClasses == old(store.scheduledClasses)
    ensures store.teachers == old(store.teachers) && store.groups == old(store.groups)
    ensures store.students == old(store.students)
    ensures old(store.Consistent()) ==> store.Consistent()
  {
    effect := DropUpdate(result, store.scheduledClasses);
    if effect.Update? {
      store.UpdateScheduledClass(effect.updated);
    }
  }
}
