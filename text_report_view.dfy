/** The day-by-day text report (teacher-scheduler-app/src/components/TextReportView.tsx):
    classes grouped into seven Monday-to-Sunday sections, each sorted by
    start time, and the conditions under which sections and the "no classes"
    placeholder appear. */
module TextReportView {
  import opened Types
  import opened Clock
  import Seqs

  /** Section headings, Monday first. */
  const DAYS_OF_WEEK: seq<string> :=
    ["Понедельник", "Вторник", "Среда", "Четверг", "Пятница", "Суббота", "Воскресенье"]

  /** The same names in `getDay()` order, Sunday first. */
  const DAYS_FROM_SUNDAY: seq<string> :=
    ["Воскресенье", "Понедельник", "Вторник", "Среда", "Четверг", "Пятница", "Суббота"]

  /** `names.indexOf(name)`: the first position, or -1. */
  function IndexOfName(names: seq<string>, name: string): (i: int)
    ensures -1 <= i < |names|
    ensures i == -1 <==> name !in names
    ensures i >= 0 ==> names[i] == name && name !in names[..i]
  {
    if names == [] then -1
    else if names[0] == name then 0
    else
      var i := IndexOfName(names[1..], name);
      assert names == [names[0]] + names[1..];
      if i == -1 then -1
      else
        assert names[..i + 1] == [names[0]] + names[1..][..i];
        i + 1
  }

  /** No name occurs twice: the first two letters already tell them apart. */
  lemma DistinctDayNames()
    ensures forall i, j :: 0 <= i < 7 && 0 <= j < 7 && i != j ==> DAYS_FROM_SUNDAY[i] != DAYS_FROM_SUNDAY[j]
  {
    forall i, j | 0 <= i < 7 && 0 <= j < 7 && i != j
      ensures DAYS_FROM_SUNDAY[i] != DAYS_FROM_SUNDAY[j]
    {
      assert DAYS_FROM_SUNDAY[i][0] != DAYS_FROM_SUNDAY[j][0] || DAYS_FROM_SUNDAY[i][1] != DAYS_FROM_SUNDAY[j][1];
    }
  }

  /** Section `k` collects the classes of weekday `(k + 1) % 7`. */
  lemma {:induction false} DayIndex(k: int)
    requires 0 <= k < 7
    ensures IndexOfName(DAYS_FROM_SUNDAY, DAYS_OF_WEEK[k]) == (k + 1) % 7
  {
    DistinctDayNames();
    assert DAYS_FROM_SUNDAY[(k + 1) % 7] == DAYS_OF_WEEK[k];
  }

  /** The `dayIndex` of section `k`: its name looked up in the Sunday-first list. */
  method DayIndexOfColumn(k: int) returns (dayIndex: int)
    requires 0 <= k < 7
    ensures dayIndex == (k + 1) % 7
  {
    dayIndex := IndexOfName(DAYS_FROM_SUNDAY, DAYS_OF_WEEK[k]);
    DayIndex(k);
  }

  /** The classes of one weekday, in list order. */
  function DayClasses(scheduledClasses: seq<ScheduledClass>, dayIndex: int): seq<ScheduledClass>
  {
    Seqs.Filter(scheduledClasses, (c: ScheduledClass) => Weekday(Start(c)) == dayIndex)
  }

  // ---------------------------------------------------------------------------
  // Sorting by start time

  predicate SortedByStart(s: seq<ScheduledClass>)
  {
    forall i, j :: 0 <= i < j < |s| ==> Start(s[i]) <= Start(s[j])
  }

  /** `x` placed into the sorted `r` before the first entry that starts no
      earlier than it. */
  function Insert(x: ScheduledClass, r: seq<ScheduledClass>): seq<ScheduledClass>
  {
    if r == [] || Start(x) <= Start(r[0]) then [x] + r
    else [r[0]] + Insert(x, r[1..])
  }

  /** The order `sort((a, b) => timeA - timeB)` leaves behind: ascending start
      time, equal starts in their original order. */
  function SortByStart(s: seq<ScheduledClass>): seq<ScheduledClass>
  {
    if s == [] then [] else Insert(s[0], SortByStart(s[1..]))
  }

  /** The classes that start at instant `t`. */
  function StartsAt(t: int): ScheduledClass -> bool
  {
    (c: ScheduledClass) => Start(c) == t
  }

  lemma {:induction false} InsertPermutes(x: ScheduledClass, r: seq<ScheduledClass>)
    ensures multiset(Insert(x, r)) == multiset{x} + multiset(r)
  {
    if r != [] && Start(x) > Start(r[0]) {
      InsertPermutes(x, r[1..]);
      assert r == [r[0]] + r[1..];
    }
  }

  lemma {:induction false} InsertSorted(x: ScheduledClass, r: seq<ScheduledClass>)
    requires SortedByStart(r)
    ensures SortedByStart(Insert(x, r))
  {
    if r != [] && Start(x) > Start(r[0]) {
      InsertSorted(x, r[1..]);
      InsertPermutes(x, r[1..]);
      var ins := Insert(x, r[1..]);
      forall c | c in ins
        ensures Start(r[0]) <= Start(c)
      {
        assert c in multiset(ins);
      }
    }
  }

  /** A stable insertion: among the classes starting at any instant `t`, `x`
      comes before those of the sorted rest. */
  lemma {:induction false} InsertStable(x: ScheduledClass, r: seq<ScheduledClass>, t: int)
    requires SortedByStart(r)
    ensures Seqs.Filter(Insert(x, r), StartsAt(t)) ==
      (if Start(x) == t then [x] else []) + Seqs.Filter(r, StartsAt(t))
  {
    if r != [] && Start(x) > Start(r[0]) {
      InsertStable(x, r[1..], t);
      assert Start(x) == t ==> Start(r[0]) != t;
    }
  }

  /** Sorting keeps every class, as often as it occurs. */
  lemma {:induction false} SortByStartPermutes(s: seq<ScheduledClass>)
    ensures multiset(SortByStart(s)) == multiset(s)
  {
    if s != [] {
      SortByStartPermutes(s[1..]);
      InsertPermutes(s[0], SortByStart(s[1..]));
      assert s == [s[0]] + s[1..];
    }
  }

  /** Sorting orders by start time. */
  lemma {:induction false} SortByStartSorted(s: seq<ScheduledClass>)
    ensures SortedByStart(SortByStart(s))
  {
    if s != [] {
      SortByStartSorted(s[1..]);
      InsertSorted(s[0], SortByStart(s[1..]));
    }
  }

  /** Sorting is stable: the classes starting at any one instant keep their
      relative order. */
  lemma {:induction false} SortByStartStable(s: seq<ScheduledClass>, t: int)
    ensures Seqs.Filter(SortByStart(s), StartsAt(t)) == Seqs.Filter(s, StartsAt(t))
  {
    if s != [] {
      SortByStartStable(s[1..], t);
      SortByStartSorted(s[1..]);
      InsertStable(s[0], SortByStart(s[1..]), t);
    }
  }

  /** Two lists sorted by start that hold, for every instant, the same
      classes in the same order are the same list. */
  lemma {:induction false} SortedStableEqual(a: seq<ScheduledClass>, b: seq<ScheduledClass>)
    requires SortedByStart(a) && SortedByStart(b)
    requires forall t :: Seqs.Filter(a, StartsAt(t)) == Seqs.Filter(b, StartsAt(t))
    ensures a == b
  {
    if a != [] {
      FirstAtStart(a);
      assert Seqs.Filter(b, StartsAt(Start(a[0]))) != [];
    }
    if b != [] {
      FirstAtStart(b);
      assert Seqs.Filter(a, StartsAt(Start(b[0]))) != [];
    }
    if a != [] && b != [] {
      FirstAtStart(a);
      FirstAtStart(b);
      EarliestStart(a, Start(b[0]));
      EarliestStart(b, Start(a[0]));
      var first := Start(a[0]);
      assert Start(b[0]) == first;
      assert Seqs.Filter(a, StartsAt(first)) == Seqs.Filter(b, StartsAt(first));
      assert a[0] == Seqs.Filter(a, StartsAt(first))[0];
      forall t
        ensures Seqs.Filter(a[1..], StartsAt(t)) == Seqs.Filter(b[1..], StartsAt(t))
      {
        var head := if StartsAt(t)(a[0]) then [a[0]] else [];
        var restA, restB := Seqs.Filter(a[1..], StartsAt(t)), Seqs.Filter(b[1..], StartsAt(t));
        assert Seqs.Filter(a, StartsAt(t)) == head + restA;
        assert Seqs.Filter(b, StartsAt(t)) == head + restB;
        assert (head + restA)[|head|..] == restA;
        assert (head + restB)[|head|..] == restB;
      }
      SortedTail(a);
      SortedTail(b);
      SortedStableEqual(a[1..], b[1..]);
      assert a == [a[0]] + a[1..] && b == [b[0]] + b[1..];
    }
  }

  lemma FirstAtStart(a: seq<ScheduledClass>)
    requires a != []
    ensures Seqs.Filter(a, StartsAt(Start(a[0]))) == [a[0]] + Seqs.Filter(a[1..], StartsAt(Start(a[0])))
  {
  }

  /** In a list sorted by start, a class starting at `t` means the first
      class starts no later than `t`. */
  lemma {:induction false} EarliestStart(a: seq<ScheduledClass>, t: int)
    requires a != [] && SortedByStart(a)
    requires Seqs.Filter(a, StartsAt(t)) != []
    ensures Start(a[0]) <= t
  {
    Seqs.FilterMembers(a, StartsAt(t));
    var c := Seqs.Filter(a, StartsAt(t))[0];
    assert c in Seqs.Filter(a, StartsAt(t));
    var i :| 0 <= i < |a| && a[i] == c;
  }

  lemma SortedTail(a: seq<ScheduledClass>)
    requires a != [] && SortedByStart(a)
    ensures SortedByStart(a[1..])
  {
    forall i, j | 0 <= i < j < |a| - 1
      ensures Start(a[1..][i]) <= Start(a[1..][j])
    {
      assert a[1..][i] == a[i + 1] && a[1..][j] == a[j + 1];
    }
  }

  /** The sort is determined by what the comparator promises: any list that
      is sorted by start and keeps the input order among equal starts is
      `SortByStart` of the input. A stable sort with `timeA - timeB` gives
      exactly that list. */
  lemma {:induction false} SortByStartUnique(s: seq<ScheduledClass>, t: seq<ScheduledClass>)
    requires SortedByStart(t)
    requires forall i :: Seqs.Filter(t, StartsAt(i)) == Seqs.Filter(s, StartsAt(i))
    ensures t == SortByStart(s)
  {
    SortByStartSorted(s);
    forall i
      ensures Seqs.Filter(t, StartsAt(i)) == Seqs.Filter(SortByStart(s), StartsAt(i))
    {
      SortByStartStable(s, i);
    }
    SortedStableEqual(t, SortByStart(s));
  }

  /** Moving `x` one place right past an earlier-starting class. */
  lemma InsertShift(x: ScheduledClass, p: seq<ScheduledClass>, k: int)
    requires 0 <= k < |p| && Start(p[k]) < Start(x)
    ensures p[..k] + Insert(x, p[k..]) == p[..k + 1] + Insert(x, p[k + 1..])
  {
    assert p[k..][1..] == p[k + 1..];
    assert p[..k + 1] == p[..k] + [p[k]];
  }

  /** The array during one insertion pass: the fixed prefix, the first `k`
      later classes, the class being inserted, then the remaining ones. */
  ghost function Placed(pre: seq<ScheduledClass>, p: seq<ScheduledClass>, k: int, x: ScheduledClass): seq<ScheduledClass>
    requires 0 <= k <= |p|
  {
    pre + p[..k] + [x] + p[k..]
  }

  lemma PlacedAt(pre: seq<ScheduledClass>, p: seq<ScheduledClass>, k: int, x: ScheduledClass)
    requires 0 <= k < |p|
    ensures |Placed(pre, p, k, x)| == |pre| + |p| + 1
    ensures Placed(pre, p, k, x)[|pre| + k + 1] == p[k]
  {
  }

  /** Swapping `x` with the class after it moves it one place on. */
  lemma SwapStep(pre: seq<ScheduledClass>, p: seq<ScheduledClass>, k: int, x: ScheduledClass)
    requires 0 <= k < |p|
    ensures Placed(pre, p, k, x)[|pre| + k := p[k]][|pre| + k + 1 := x] == Placed(pre, p, k + 1, x)
  {
    assert p[k..] == [p[k]] + p[k + 1..];
    assert p[..k + 1] == p[..k] + [p[k]];
  }

  /** Once `x` meets a class that starts no earlier, or the end, it is in
      its sorted place. */
  lemma PlacedDone(pre: seq<ScheduledClass>, p: seq<ScheduledClass>, k: int, x: ScheduledClass)
    requires 0 <= k <= |p| && (k == |p| || Start(x) <= Start(p[k]))
    requires Insert(x, p) == p[..k] + Insert(x, p[k..])
    ensures Placed(pre, p, k, x) == pre + Insert(x, p)
    ensures Placed(pre, p, k, x)[..|pre|] == pre
    ensures Placed(pre, p, k, x)[|pre|..] == Insert(x, p)
  {
    assert Insert(x, p[k..]) == [x] + p[k..];
    assert Placed(pre, p, k, x) == pre + Insert(x, p);
  }

  /** One pass of the insertion sort: move `a[i]` right past every later
      class that starts strictly earlier. */
  method InsertFirst(a: array<ScheduledClass>, i: int)
    requires 0 <= i < a.Length
    modifies a
    ensures a[..i] == old(a[..i])
    ensures a[i..] == Insert(old(a[i]), old(a[i + 1..]))
  {
    ghost var pre, p := a[..i], a[i + 1..];
    var x := a[i];
    assert a[..] == Placed(pre, p, 0, x);
    var j := i;
    ghost var k := 0;
    while j + 1 < a.Length && Start(a[j + 1]) < Start(x)
      invariant j == i + k && 0 <= k <= |p| && j < a.Length
      invariant a[..] == Placed(pre, p, k, x)
      invariant Insert(x, p) == p[..k] + Insert(x, p[k..])
    {
      ghost var cur := a[..];
      PlacedAt(pre, p, k, x);
      InsertShift(x, p, k);
      SwapStep(pre, p, k, x);
      var next := a[j + 1];
      a[j], a[j + 1] := next, x;
      assert a[..] == cur[j := next][j + 1 := x];
      j, k := j + 1, k + 1;
    }
    if j + 1 < a.Length {
      PlacedAt(pre, p, k, x);
    }
    PlacedDone(pre, p, k, x);
  }

  /** `dayClasses.sort(...)`: insertion sort in place. */
  method SortByStartInPlace(a: array<ScheduledClass>)
    modifies a
    ensures a[..] == SortByStart(old(a[..]))
  {
    var i := a.Length;
    while i > 0
      invariant 0 <= i <= a.Length
      invariant a[..i] == old(a[..])[..i]
      invariant a[i..] == SortByStart(old(a[..])[i..])
    {
      i := i - 1;
      assert old(a[..])[i..][1..] == old(a[..])[i + 1..];
      InsertFirst(a, i);
    }
    assert a[0..] == a[..];
  }

  // ---------------------------------------------------------------------------
  // Sections

  datatype DaySection = DaySection(dayName: string, classes: seq<ScheduledClass>)

  /** All classes of the sections, section after section. */
  function Concat(sections: seq<DaySection>): seq<ScheduledClass>
  {
    if sections == [] then [] else sections[0].classes + Concat(sections[1..])
  }

  /** Position of a weekday in a Monday-first week. */
  function Column(c: ScheduledClass): int
  {
    MondayIndex(Weekday(Start(c)))
  }

  /** The classes of columns `j` and later. */
  function ColumnFrom(j: int): ScheduledClass -> bool
  {
    (c: ScheduledClass) => j <= Column(c)
  }

  /** Columns from `j` on hold the classes of weekday `(j + 1) % 7` and
      those of the columns after `j`. */
  lemma {:induction false} BucketStep(s: seq<ScheduledClass>, j: int)
    requires 0 <= j < 7
    ensures multiset(Seqs.Filter(s, ColumnFrom(j))) ==
      multiset(DayClasses(s, (j + 1) % 7)) + multiset(Seqs.Filter(s, ColumnFrom(j + 1)))
  {
    if s != [] {
      BucketStep(s[1..], j);
      ColumnStep(s[0], j);
    }
  }

  /** A class is in column `j` or later exactly when it is on weekday
      `(j + 1) % 7` or in a later column, and never both. */
  lemma ColumnStep(c: ScheduledClass, j: int)
    requires 0 <= j < 7
    ensures ColumnFrom(j)(c) <==> Weekday(Start(c)) == (j + 1) % 7 || ColumnFrom(j + 1)(c)
    ensures !(Weekday(Start(c)) == (j + 1) % 7 && ColumnFrom(j + 1)(c))
  {
    ColumnDay(c);
  }

  /** One day's section holds exactly that day's classes, sorted by start. */
  lemma {:induction false} DaySectionSpec(s: seq<ScheduledClass>, dayIndex: int)
    ensures SortedByStart(SortByStart(DayClasses(s, dayIndex)))
    ensures multiset(SortByStart(DayClasses(s, dayIndex))) == multiset(DayClasses(s, dayIndex))
    ensures forall c :: c in SortByStart(DayClasses(s, dayIndex)) <==> c in s && Weekday(Start(c)) == dayIndex
  {
    var day := DayClasses(s, dayIndex);
    SortByStartSorted(day);
    SortByStartPermutes(day);
    Seqs.FilterMembers(s, (c: ScheduledClass) => Weekday(Start(c)) == dayIndex);
    forall c
      ensures c in SortByStart(day) <==> c in day
    {
      assert c in SortByStart(day) <==> c in multiset(SortByStart(day));
      assert c in day <==> c in multiset(day);
    }
  }

  /** The sections from `j` on together hold the classes of the columns
      from `j` on. */
  lemma {:induction false} SectionsCoverSuffix(s: seq<ScheduledClass>, sections: seq<DaySection>, j: int)
    requires |sections| == 7 && 0 <= j <= 7
    requires forall k :: 0 <= k < 7 ==> multiset(sections[k].classes) == multiset(DayClasses(s, (k + 1) % 7))
    ensures multiset(Concat(sections[j..])) == multiset(Seqs.Filter(s, ColumnFrom(j)))
    decreases 7 - j
  {
    if j == 7 {
      Seqs.FilterOfEmpty(s, ColumnFrom(7));
    } else {
      var day := sections[j].classes;
      assert multiset(day) == multiset(DayClasses(s, (j + 1) % 7));
      ConcatFrom(sections, j);
      SectionsCoverSuffix(s, sections, j + 1);
      BucketStep(s, j);
      calc {
        multiset(Concat(sections[j..]));
        multiset(day) + multiset(Concat(sections[j + 1..]));
        multiset(DayClasses(s, (j + 1) % 7)) + multiset(Seqs.Filter(s, ColumnFrom(j + 1)));
      }
    }
  }

  lemma ConcatFrom(sections: seq<DaySection>, j: int)
    requires 0 <= j < |sections|
    ensures Concat(sections[j..]) == sections[j].classes + Concat(sections[j + 1..])
  {
    assert sections[j..][1..] == sections[j + 1..];
  }

  /** Seven sections that each hold their day's classes, in any order,
      together hold every class exactly once. */
  lemma {:induction false} SectionsCoverAll(s: seq<ScheduledClass>, sections: seq<DaySection>)
    requires |sections| == 7
    requires forall k :: 0 <= k < 7 ==> multiset(sections[k].classes) == multiset(DayClasses(s, (k + 1) % 7))
    ensures multiset(Concat(sections)) == multiset(s)
  {
    SectionsCoverSuffix(s, sections, 0);
    Seqs.FilterKeepsAll(s, ColumnFrom(0));
    assert sections[0..] == sections;
  }

  /** Column `Column(c)` is the section of weekday `Weekday(Start(c))`. */
  lemma ColumnDay(c: ScheduledClass)
    ensures 0 <= Column(c) < 7 && (Column(c) + 1) % 7 == Weekday(Start(c))
  {
  }

  /** Sections that each hold exactly their day's classes are all empty
      exactly when there are no classes. */
  lemma {:induction false} SectionsEmpty(s: seq<ScheduledClass>, sections: seq<DaySection>)
    requires |sections| == 7
    requires forall k, c :: 0 <= k < 7 ==>
      (c in sections[k].classes <==> c in s && Weekday(Start(c)) == (k + 1) % 7)
    ensures (forall k :: 0 <= k < 7 ==> sections[k].classes == []) <==> s == []
  {
    if s != [] {
      ColumnDay(s[0]);
      assert s[0] in sections[Column(s[0])].classes;
    }
    if k :| 0 <= k < 7 && sections[k].classes != [] {
      var c := sections[k].classes[0];
      assert c in sections[k].classes;
      assert c in s;
    }
  }

  /** What the sections mean: each holds exactly its day's classes, sorted by
      start; together they hold every class once; and all are empty exactly
      when there are no classes. */
  lemma {:induction false} SectionsPartition(s: seq<ScheduledClass>, sections: seq<DaySection>)
    requires |sections| == 7
    requires forall k :: 0 <= k < 7 ==> sections[k].classes == SortByStart(DayClasses(s, (k + 1) % 7))
    ensures forall k, c :: 0 <= k < 7 ==>
      (c in sections[k].classes <==> c in s && Weekday(Start(c)) == (k + 1) % 7)
    ensures forall k :: 0 <= k < 7 ==> SortedByStart(sections[k].classes)
    ensures multiset(Concat(sections)) == multiset(s)
    ensures (forall k :: 0 <= k < 7 ==> sections[k].classes == []) <==> s == []
  {
    forall k | 0 <= k < 7
      ensures SortedByStart(sections[k].classes)
      ensures multiset(sections[k].classes) == multiset(DayClasses(s, (k + 1) % 7))
      ensures forall c :: c in sections[k].classes <==> c in s && Weekday(Start(c)) == (k + 1) % 7
    {
      DaySectionSpec(s, (k + 1) % 7);
    }
    SectionsCoverAll(s, sections);
    SectionsEmpty(s, sections);
  }

  /** `dayClasses` after `dayClasses.sort(...)`: the filtered classes in a
      fresh array, sorted there in place. */
  method SortedCopy(dayClasses: seq<ScheduledClass>) returns (sorted: seq<ScheduledClass>)
    ensures sorted == SortByStart(dayClasses)
  {
    var buffer := new ScheduledClass[|dayClasses|](i requires 0 <= i < |dayClasses| => dayClasses[i]);
    assert buffer[..] == dayClasses;
    SortByStartInPlace(buffer);
    sorted := buffer[..];
  }

  /** `classesByDay`: for each day, Monday first, the classes whose weekday
      matches, sorted by start time. The input is a value, so it is left as
      it was. `SectionsPartition` states what the sections then hold. */
  method ClassesByDay(scheduledClasses: seq<ScheduledClass>) returns (classesByDay: seq<DaySection>)
    ensures |classesByDay| == 7
    ensures forall k :: 0 <= k < 7 ==> classesByDay[k].dayName == DAYS_OF_WEEK[k]
    ensures forall k :: 0 <= k < 7 ==>
      classesByDay[k].classes == SortByStart(DayClasses(scheduledClasses, (k + 1) % 7))
  {
    classesByDay := [];
    for k := 0 to 7
      invariant |classesByDay| == k
      invariant forall m :: 0 <= m < k ==> classesByDay[m].dayName == DAYS_OF_WEEK[m]
      invariant forall m :: 0 <= m < k ==>
        (classesByDay[m].classes == SortByStart(DayClasses(scheduledClasses, (m + 1) % 7)))
    {
      var dayName := DAYS_OF_WEEK[k];
      var dayIndex := DayIndexOfColumn(k);
      var dayClasses := DayClasses(scheduledClasses, dayIndex);
      var sorted := SortedCopy(dayClasses);
      assert sorted == SortByStart(DayClasses(scheduledClasses, (k + 1) % 7));
      classesByDay := classesByDay + [DaySection(dayName, sorted)];
    }
  }

  /** A section is rendered only when it has classes. */
  predicate SectionShown(section: DaySection)
  {
    |section.classes| != 0
  }

  /** The "no classes" placeholder shows for an empty list. */
  predicate PlaceholderShown(scheduledClasses: seq<ScheduledClass>)
  {
    |scheduledClasses| == 0
  }

  /** The report is never blank and never both: the placeholder shows exactly
      when no section does. */
  lemma ReportNeverBlank(s: seq<ScheduledClass>, sections: seq<DaySection>)
    requires |sections| == 7
    requires forall k :: 0 <= k < 7 ==> sections[k].classes == SortByStart(DayClasses(s, (k + 1) % 7))
    ensures PlaceholderShown(s) <==> forall k :: 0 <= k < 7 ==> !SectionShown(sections[k])
  {
    SectionsPartition(s, sections);
  }
}
