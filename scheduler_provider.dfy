/** The entity store (teacher-scheduler-app/src/context/SchedulerProvider.tsx):
    four collections and the operations that replace them, with the conflict
    rule gating additions and updates of classes. */
module SchedulerProvider {
  import opened Types
  import opened SchedulerUtils
  import Seqs

  /** Ids of the classes in `s`. */
  function ClassIds(s: seq<ScheduledClass>): set<string>
  {
    set c | c in s :: c.id
  }

  /** No two positions hold the same class id. */
  ghost predicate UniqueIds(s: seq<ScheduledClass>)
  {
    forall i, j :: 0 <= i < |s| && 0 <= j < |s| && s[i].id == s[j].id ==> i == j
  }

  /** No teacher and no group value is booked twice in one clock hour. */
  ghost predicate NoDoubleBooking(s: seq<ScheduledClass>)
  {
    forall a, b :: a in s && b in s ==> !Clashes(a, b)
  }

  ghost predicate ScheduleConsistent(s: seq<ScheduledClass>)
  {
    UniqueIds(s) && NoDoubleBooking(s)
  }

  /** The new class list of `updateScheduledClass` when no conflict is found:
      every entry with the updated id becomes the update. */
  function ReplaceClass(s: seq<ScheduledClass>, updated: ScheduledClass): seq<ScheduledClass>
  {
    Seqs.Map(s, (sc: ScheduledClass) => if sc.id == updated.id then updated else sc)
  }

  /** Appending a class with a fresh id that conflicts with nothing keeps the
      schedule consistent. */
  lemma AppendKeepsConsistent(s: seq<ScheduledClass>, c: ScheduledClass)
    requires ScheduleConsistent(s)
    requires c.id !in ClassIds(s) && !ConflictsWith(c, s)
    ensures ScheduleConsistent(s + [c])
  {
    var t := s + [c];
    forall a, b | a in t && b in t
      ensures !Clashes(a, b)
    {
      if a == c && b != c {
        assert b in s;
      } else if b == c && a != c {
        assert a in s && !Clashes(c, a);
      }
    }
    assert forall k :: 0 <= k < |s| ==> t[k] == s[k] && s[k].id in ClassIds(s);
    assert t[|s|] == c;
  }

  /** An update that conflicts with nothing keeps the schedule consistent,
      and every position keeps its id. */
  lemma ReplaceKeepsConsistent(s: seq<ScheduledClass>, updated: ScheduledClass)
    requires ScheduleConsistent(s)
    requires !ConflictsWith(updated, s)
    ensures |ReplaceClass(s, updated)| == |s|
    ensures forall k :: 0 <= k < |s| ==> ReplaceClass(s, updated)[k].id == s[k].id
    ensures ScheduleConsistent(ReplaceClass(s, updated))
  {
    var f := (sc: ScheduledClass) => if sc.id == updated.id then updated else sc;
    var t := ReplaceClass(s, updated);
    Seqs.MapAt(s, f);
    assert forall k :: 0 <= k < |s| ==> t[k] == f(s[k]);
    forall a, b | a in t && b in t
      ensures !Clashes(a, b)
    {
      var i :| 0 <= i < |t| && t[i] == a;
      var j :| 0 <= j < |t| && t[j] == b;
      if a == updated && b != updated {
        assert b == s[j];
        assert !Clashes(updated, s[j]);
      } else if b == updated && a != updated {
        assert a == s[i];
        assert !Clashes(updated, s[i]);
      } else if a != updated && b != updated {
        assert a == s[i] && b == s[j];
      }
    }
  }

  /** Dropping classes keeps the schedule consistent. */
  lemma {:induction false} FilterKeepsConsistent(s: seq<ScheduledClass>, keep: ScheduledClass -> bool)
    requires ScheduleConsistent(s)
    ensures ScheduleConsistent(Seqs.Filter(s, keep))
  {
    Seqs.FilterMembers(s, keep);
    FilterKeepsUniqueIds(s, keep);
  }

  lemma {:induction false} FilterKeepsUniqueIds(s: seq<ScheduledClass>, keep: ScheduledClass -> bool)
    requires UniqueIds(s)
    ensures UniqueIds(Seqs.Filter(s, keep))
  {
    if s != [] {
      var rest := s[1..];
      assert UniqueIds(rest) by {
        forall i, j | 0 <= i < |rest| && 0 <= j < |rest| && rest[i].id == rest[j].id
          ensures i == j
        {
          assert s[i + 1].id == s[j + 1].id;
        }
      }
      FilterKeepsUniqueIds(rest, keep);
      var tail := Seqs.Filter(rest, keep);
      if keep(s[0]) {
        var t := [s[0]] + tail;
        assert Seqs.Filter(s, keep) == t;
        Seqs.FilterMembers(rest, keep);
        assert forall m :: 0 <= m < |rest| ==> rest[m] == s[m + 1];
        assert forall x :: x in tail ==> x.id != s[0].id;
        assert forall k :: 0 < k < |t| ==> t[k] == tail[k - 1] && t[k] in tail;
      }
    }
  }

  /** `updateScheduledClass` with an id that is not in the list changes nothing. */
  lemma ReplaceAbsentIsNoOp(s: seq<ScheduledClass>, updated: ScheduledClass)
    requires updated.id !in ClassIds(s)
    ensures ReplaceClass(s, updated) == s
  {
    Seqs.MapIdentity(s, (sc: ScheduledClass) => if sc.id == updated.id then updated else sc);
  }

  /** The store: the four state cells of the provider. */
  class Scheduler {
    var teachers: seq<Teacher>
    var groups: seq<Group>
    var students: seq<Student>
    var scheduledClasses: seq<ScheduledClass>

    /** The store before anything is loaded: four empty collections. */
    constructor ()
      ensures teachers == [] && groups == [] && students == [] && scheduledClasses == []
    {
      teachers, groups, students, scheduledClasses := [], [], [], [];
    }

    ghost predicate Consistent()
      reads this
    {
      ScheduleConsistent(scheduledClasses)
    }

    /** `addScheduledClass`: give the item the fresh id `newId`; append it
        unless it conflicts, in which case nothing changes. */
    method AddScheduledClass(itemToAdd: ScheduledClass, newId: string)
      requires newId !in ClassIds(scheduledClasses)
      modifies this
      ensures var added := itemToAdd.(id := newId);
        scheduledClasses == if ConflictsWith(added, old(scheduledClasses)) then old(scheduledClasses)
                            else old(scheduledClasses) + [added]
      ensures teachers == old(teachers) && groups == old(groups) && students == old(students)
      ensures old(Consistent()) ==> Consistent()
    {
      var newClassWithId := itemToAdd.(id := newId);
      var conflicts := CheckForConflicts(newClassWithId, scheduledClasses);
      if !conflicts {
        if Consistent() {
          AppendKeepsConsistent(scheduledClasses, newClassWithId);
        }
        scheduledClasses := scheduledClasses + [newClassWithId];
      }
    }

    /** `updateScheduledClass`: unless the update conflicts with another
        class, every entry with its id is replaced; order and length stay. */
    method UpdateScheduledClass(itemToUpdate: ScheduledClass)
      modifies this
      ensures scheduledClasses == if ConflictsWith(itemToUpdate, old(scheduledClasses)) then old(scheduledClasses)
                                  else ReplaceClass(old(scheduledClasses), itemToUpdate)
      ensures |scheduledClasses| == |old(scheduledClasses)|
      ensures forall k :: 0 <= k < |scheduledClasses| ==>
        scheduledClasses[k] == (if old(scheduledClasses)[k].id == itemToUpdate.id && !ConflictsWith(itemToUpdate, old(scheduledClasses))
                                then itemToUpdate else old(scheduledClasses)[k])
      ensures itemToUpdate.id !in ClassIds(old(scheduledClasses)) ==> scheduledClasses == old(scheduledClasses)
      ensures teachers == old(teachers) && groups == old(groups) && students == old(students)
      ensures old(Consistent()) ==> Consistent()
    {
      var conflicts := CheckForConflicts(itemToUpdate, scheduledClasses);
      Seqs.MapAt(scheduledClasses, (sc: ScheduledClass) => if sc.id == itemToUpdate.id then itemToUpdate else sc);
      if itemToUpdate.id !in ClassIds(scheduledClasses) {
        ReplaceAbsentIsNoOp(scheduledClasses, itemToUpdate);
      }
      if !conflicts {
        if Consistent() {
          ReplaceKeepsConsistent(scheduledClasses, itemToUpdate);
        }
        scheduledClasses := ReplaceClass(scheduledClasses, itemToUpdate);
      }
    }

    /** `deleteScheduledClass`: drop exactly the entries with this id. */
    method DeleteScheduledClass(id: string)
      modifies this
      ensures scheduledClasses == Seqs.Filter(old(scheduledClasses), (sc: ScheduledClass) => sc.id != id)
      ensures forall c :: c in scheduledClasses <==> c in old(scheduledClasses) && c.id != id
      ensures Seqs.IsSubsequence(scheduledClasses, old(scheduledClasses))
      ensures id !in ClassIds(old(scheduledClasses)) ==> scheduledClasses == old(scheduledClasses)
      ensures teachers == old(teachers) && groups == old(groups) && students == old(students)
      ensures old(Consistent()) ==> Consistent()
    {
      var keep := (sc: ScheduledClass) => sc.id != id;
      Seqs.FilterMembers(scheduledClasses, keep);
      Seqs.FilterKeepsOrder(scheduledClasses, keep);
      if id !in ClassIds(scheduledClasses) {
        Seqs.FilterKeepsAll(scheduledClasses, keep);
      }
      if Consistent() {
        FilterKeepsConsistent(scheduledClasses, keep);
      }
      scheduledClasses := Seqs.Filter(scheduledClasses, keep);
    }

    /** `addTeacher`: append, with no check on the id. */
    method AddTeacher(teacher: Teacher)
      modifies this
      ensures teachers == old(teachers) + [teacher]
      ensures groups == old(groups) && students == old(students) && scheduledClasses == old(scheduledClasses)
    {
      teachers := teachers + [teacher];
    }

    /** `updateTeacher`: replace every teacher with this id. */
    method UpdateTeacher(teacher: Teacher)
      modifies this
      ensures teachers == Seqs.Map(old(teachers), (t: Teacher) => if t.id == teacher.id then teacher else t)
      ensures |teachers| == |old(teachers)|
      ensures forall k :: 0 <= k < |teachers| ==>
        teachers[k] == if old(teachers)[k].id == teacher.id then teacher else old(teachers)[k]
      ensures (forall t :: t in old(teachers) ==> t.id != teacher.id) ==> teachers == old(teachers)
      ensures groups == old(groups) && students == old(students) && scheduledClasses == old(scheduledClasses)
    {
      var f := (t: Teacher) => if t.id == teacher.id then teacher else t;
      Seqs.MapAt(teachers, f);
      if forall t :: t in teachers ==> t.id != teacher.id {
        Seqs.MapIdentity(teachers, f);
      }
      teachers := Seqs.Map(teachers, f);
    }

    /** `deleteTeacher`: remove the teacher, every group it owns and every
        class it teaches; students stay. */
    method DeleteTeacher(id: string)
      modifies this
      ensures teachers == Seqs.Filter(old(teachers), (t: Teacher) => t.id != id)
      ensures groups == Seqs.Filter(old(groups), (g: Group) => g.teacherId != id)
      ensures scheduledClasses == Seqs.Filter(old(scheduledClasses), (sc: ScheduledClass) => sc.teacherId != id)
      ensures forall t :: t in teachers <==> t in old(teachers) && t.id != id
      ensures forall g :: g in groups <==> g in old(groups) && g.teacherId != id
      ensures forall c :: c in scheduledClasses <==> c in old(scheduledClasses) && c.teacherId != id
      ensures students == old(students)
      ensures old(Consistent()) ==> Consistent()
    {
      var keepTeacher := (t: Teacher) => t.id != id;
      var keepGroup := (g: Group) => g.teacherId != id;
      var keepClass := (sc: ScheduledClass) => sc.teacherId != id;
      Seqs.FilterMembers(teachers, keepTeacher);
      Seqs.FilterMembers(groups, keepGroup);
      Seqs.FilterMembers(scheduledClasses, keepClass);
      if Consistent() {
        FilterKeepsConsistent(scheduledClasses, keepClass);
      }
      teachers := Seqs.Filter(teachers, keepTeacher);
      groups := Seqs.Filter(groups, keepGroup);
      scheduledClasses := Seqs.Filter(scheduledClasses, keepClass);
    }

    /** `addGroup`: append, with no check on the id. */
    method AddGroup(group: Group)
      modifies this
      ensures groups == old(groups) + [group]
      ensures teachers == old(teachers) && students == old(students) && scheduledClasses == old(scheduledClasses)
    {
      groups := groups + [group];
    }

    /** `updateGroup`: replace every group with this id. */
    method UpdateGroup(group: Group)
      modifies this
      ensures groups == Seqs.Map(old(groups), (g: Group) => if g.id == group.id then group else g)
      ensures |groups| == |old(groups)|
      ensures forall k :: 0 <= k < |groups| ==>
        groups[k] == if old(groups)[k].id == group.id then group else old(groups)[k]
      ensures (forall g :: g in old(groups) ==> g.id != group.id) ==> groups == old(groups)
      ensures teachers == old(teachers) && students == old(students) && scheduledClasses == old(scheduledClasses)
    {
      var f := (g: Group) => if g.id == group.id then group else g;
      Seqs.MapAt(groups, f);
      if forall g :: g in groups ==> g.id != group.id {
        Seqs.MapIdentity(groups, f);
      }
      groups := Seqs.Map(groups, f);
    }

    /** `deleteGroup`: remove the group and every class booked for it;
        classes without a group or with another group stay. */
    method DeleteGroup(id: string)
      modifies this
      ensures groups == Seqs.Filter(old(groups), (g: Group) => g.id != id)
      ensures scheduledClasses == Seqs.Filter(old(scheduledClasses), (sc: ScheduledClass) => sc.groupId != Some(id))
      ensures forall g :: g in groups <==> g in old(groups) && g.id != id
      ensures forall c :: c in scheduledClasses <==> c in old(scheduledClasses) && c.groupId != Some(id)
      ensures teachers == old(teachers) && students == old(students)
      ensures old(Consistent()) ==> Consistent()
    {
      var keepGroup := (g: Group) => g.id != id;
      var keepClass := (sc: ScheduledClass) => sc.groupId != Some(id);
      Seqs.FilterMembers(groups, keepGroup);
      Seqs.FilterMembers(scheduledClasses, keepClass);
      if Consistent() {
        FilterKeepsConsistent(scheduledClasses, keepClass);
      }
      groups := Seqs.Filter(groups, keepGroup);
      scheduledClasses := Seqs.Filter(scheduledClasses, keepClass);
    }

    /** `addStudent`: append, with no check on the id. */
    method AddStudent(student: Student)
      modifies this
      ensures students == old(students) + [student]
      ensures teachers == old(teachers) && groups == old(groups) && scheduledClasses == old(scheduledClasses)
    {
      students := students + [student];
    }

    /** `updateStudent`: replace every student with this id. */
    method UpdateStudent(student: Student)
      modifies this
      ensures students == Seqs.Map(old(students), (s: Student) => if s.id == student.id then student else s)
      ensures |students| == |old(students)|
      ensures forall k :: 0 <= k < |students| ==>
        students[k] == if old(students)[k].id == student.id then student else old(students)[k]
      ensures (forall s :: s in old(students) ==> s.id != student.id) ==> students == old(students)
      ensures teachers == old(teachers) && groups == old(groups) && scheduledClasses == old(scheduledClasses)
    {
      var f := (s: Student) => if s.id == student.id then student else s;
      Seqs.MapAt(students, f);
      if forall s :: s in students ==> s.id != student.id {
        Seqs.MapIdentity(students, f);
      }
      students := Seqs.Map(students, f);
    }

    /** `deleteStudent`: remove the student and strip its id from every
        group's members; groups keep their number, order and other fields,
        and classes, even the student's individual ones, stay. */
    method DeleteStudent(id: string)
      modifies this
      ensures students == Seqs.Filter(old(students), (s: Student) => s.id != id)
      ensures groups == Seqs.Map(old(groups), (g: Group) => g.(studentIds := Seqs.Filter(g.studentIds, (sid: string) => sid != id)))
      ensures forall s :: s in students <==> s in old(students) && s.id != id
      ensures |groups| == |old(groups)|
      ensures forall k :: 0 <= k < |groups| ==>
        && groups[k].id == old(groups)[k].id
        && groups[k].name == old(groups)[k].name
        && groups[k].teacherId == old(groups)[k].teacherId
        && (forall sid :: sid in groups[k].studentIds <==> sid in old(groups)[k].studentIds && sid != id)
      ensures teachers == old(teachers) && scheduledClasses == old(scheduledClasses)
    {
      var keepStudent := (s: Student) => s.id != id;
      var strip := (g: Group) => g.(studentIds := Seqs.Filter(g.studentIds, (sid: string) => sid != id));
      Seqs.FilterMembers(students, keepStudent);
      Seqs.MapAt(groups, strip);
      forall k | 0 <= k < |groups|
        ensures forall sid :: sid in strip(groups[k]).studentIds <==> sid in groups[k].studentIds && sid != id
      {
        Seqs.FilterMembers(groups[k].studentIds, (sid: string) => sid != id);
      }
      students := Seqs.Filter(students, keepStudent);
      groups := Seqs.Map(groups, strip);
    }

    /** The snapshot `exportData` hands to the file writer. */
    method Snapshot(lastModified: string) returns (data: AppData)
      ensures data.teachers == teachers && data.groups == groups
      ensures data.students == students && data.scheduledClasses == scheduledClasses
      ensures data.version == "1.0" && data.lastModified == lastModified
    {
      data := AppData(teachers, groups, students, scheduledClasses, "1.0", lastModified);
    }

    /** `importData`: replace all four collections wholesale. */
    method ImportData(data: AppData)
      modifies this
      ensures teachers == data.teachers && groups == data.groups
      ensures students == data.students && scheduledClasses == data.scheduledClasses
    {
      teachers := data.teachers;
      groups := data.groups;
      students := data.students;
      scheduledClasses := data.scheduledClasses;
    }

    /** `clearAllData`: empty all four collections if the user confirms,
        otherwise change nothing. */
    method ClearAllData(confirmed: bool)
      modifies this
      ensures confirmed ==> teachers == [] && groups == [] && students == [] && scheduledClasses == []
      ensures !confirmed ==> teachers == old(teachers) && groups == old(groups)
                             && students == old(students) && scheduledClasses == old(scheduledClasses)
      ensures old(Consistent()) ==> Consistent()
    {
      if confirmed {
        teachers := [];
        groups := [];
        students := [];
        scheduledClasses := [];
      }
    }
  }

  /** Importing a snapshot of a store puts back exactly what was exported. */
  method ExportImportRoundTrip(source: Scheduler, target: Scheduler, lastModified: string)
    modifies target
    ensures target.teachers == source.teachers && target.groups == source.groups
    ensures target.students == source.students && target.scheduledClasses == source.scheduledClasses
  {
    var data := source.Snapshot(lastModified);
    target.ImportData(data);
  }
}
