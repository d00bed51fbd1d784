/** The conflict rule and the teacher colour hash
    (teacher-scheduler-app/src/utils/schedulerUtils.ts). */
module SchedulerUtils {
  import opened Types
  import opened Clock
  import Seqs

  /** `e` blocks `c`: a different class in the same clock hour that has the
      same teacher or the same (possibly absent) group. */
  predicate Clashes(c: ScheduledClass, e: ScheduledClass)
  {
    && e.id != c.id
    && HourBucket(Start(c)) == HourBucket(Start(e))
    && (c.teacherId == e.teacherId || c.groupId == e.groupId)
  }

  /** Some entry of `existing` blocks `c`. */
  predicate ConflictsWith(c: ScheduledClass, existing: seq<ScheduledClass>)
  {
    exists e | e in existing :: Clashes(c, e)
  }

  /** `checkForConflicts`: scan the list, skip the candidate's own id, and
      report the first entry in the same hour with the same teacher or group. */
  method CheckForConflicts(classToCheck: ScheduledClass, existingClasses: seq<ScheduledClass>)
    returns (conflict: bool)
    ensures conflict <==> ConflictsWith(classToCheck, existingClasses)
  {
    for i := 0 to |existingClasses|
      invariant forall k :: 0 <= k < i ==> !Clashes(classToCheck, existingClasses[k])
    {
      var existingClass := existingClasses[i];
      if existingClass.id == classToCheck.id {
        continue;
      }
      var classToCheckStartTime := Instant(classToCheck.startTime);
      var existingClassStartTime := Instant(existingClass.startTime);
      var sameTimeSlot := HourBucket(classToCheckStartTime) == HourBucket(existingClassStartTime);
      if sameTimeSlot {
        assert existingClass in existingClasses;
        if classToCheck.teacherId == existingClass.teacherId {
          return true;
        }
        if classToCheck.groupId == existingClass.groupId {
          return true;
        }
      }
    }
    return false;
  }

  /** Entries carrying the candidate's own id never count, so checking an
      update against a list that still holds its old version ignores it. */
  lemma {:induction false} SelfExclusion(c: ScheduledClass, existing: seq<ScheduledClass>)
    ensures ConflictsWith(c, existing) == ConflictsWith(c, Seqs.Filter(existing, (e: ScheduledClass) => e.id != c.id))
  {
    Seqs.FilterMembers(existing, (e: ScheduledClass) => e.id != c.id);
  }

  /** A list that holds only the candidate's own prior versions gives no conflict. */
  lemma OnlySelfNoConflict(c: ScheduledClass, existing: seq<ScheduledClass>)
    requires forall e :: e in existing ==> e.id == c.id
    ensures !ConflictsWith(c, existing)
  {
  }

  /** The answer depends on which classes are present, not on their order or multiplicity. */
  lemma ConflictOrderIrrelevant(c: ScheduledClass, s: seq<ScheduledClass>, t: seq<ScheduledClass>)
    requires forall e :: e in s <==> e in t
    ensures ConflictsWith(c, s) == ConflictsWith(c, t)
  {
  }

  /** Same teacher, same hour, different id: a conflict whatever the groups. */
  lemma TeacherClash(c: ScheduledClass, e: ScheduledClass, existing: seq<ScheduledClass>)
    requires e in existing && e.id != c.id
    requires HourBucket(Start(c)) == HourBucket(Start(e)) && c.teacherId == e.teacherId
    ensures ConflictsWith(c, existing)
  {
  }

  /** Same group value, same hour, different id: a conflict whatever the
      teachers; two classes without a group share the value "no group". */
  lemma GroupClash(c: ScheduledClass, e: ScheduledClass, existing: seq<ScheduledClass>)
    requires e in existing && e.id != c.id
    requires HourBucket(Start(c)) == HourBucket(Start(e)) && c.groupId == e.groupId
    ensures ConflictsWith(c, existing)
  {
  }

  /** Classes in different clock hours never conflict. */
  lemma DifferentHourNoClash(c: ScheduledClass, e: ScheduledClass)
    requires HourBucket(Start(c)) != HourBucket(Start(e))
    ensures !Clashes(c, e) && !Clashes(e, c)
  {
  }

  /** A start given as ISO text and one given as a Date for the same instant
      give the same answer. */
  lemma StampFormIrrelevant(c: ScheduledClass, d: ScheduledClass, existing: seq<ScheduledClass>)
    requires d == c.(startTime := IsoString(Instant(c.startTime)))
    ensures ConflictsWith(c, existing) == ConflictsWith(d, existing)
  {
  }

  // ---------------------------------------------------------------------------
  // Teacher colours

  const DEFAULT_COLOR: string := "#E0E0E0"

  const TEACHER_COLORS: seq<string> := [
    "#FFADAD", "#FFD6A5", "#FDFFB6", "#CAFFBF", "#9BF6FF",
    "#A0C4FF", "#BDB2FF", "#FFC6FF", "#E0BBE4", "#D4F0F0"
  ]

  const TWO_32: int := 0x1_0000_0000
  const TWO_31: int := 0x8000_0000

  /** JavaScript's ToInt32: the 32-bit two's-complement value congruent to `x`. */
  function Int32(x: int): (r: int)
    ensures -TWO_31 <= r < TWO_31
    ensures (r - x) % TWO_32 == 0
  {
    (x + TWO_31) % TWO_32 - TWO_31
  }

  /** One round of the hash loop: `hash = code + ((hash << 5) - hash)`, then
      `hash = hash & hash`. `<<` and `&` both go through ToInt32. */
  function HashStep(hash: int, c: char): int
  {
    Int32(c as int + (Int32(hash * 32) - hash))
  }

  /** The hash after all characters of `s`. */
  function Hash(s: string): int
  {
    if s == [] then 0 else HashStep(Hash(s[..|s| - 1]), s[|s| - 1])
  }

  /** Numbers that differ by a multiple of 2^32 have the same ToInt32. */
  lemma Int32Congruent(x: int, y: int)
    requires (x - y) % TWO_32 == 0
    ensures Int32(x) == Int32(y)
  {
    var k := (x - y) / TWO_32;
    assert x - y == k * TWO_32;
    Clock.DivModUnique(x + TWO_31, TWO_32, (y + TWO_31) / TWO_32 + k, (y + TWO_31) % TWO_32);
  }

  /** Each round is the 32-bit rolling hash `h := int32(31 * h + code)`. */
  lemma HashStepIsRolling(hash: int, c: char)
    ensures HashStep(hash, c) == Int32(31 * hash + c as int)
  {
    var w := Int32(hash * 32);
    var k := (w - hash * 32) / TWO_32;
    assert w - hash * 32 == k * TWO_32;
    assert (c as int + (w - hash)) - (31 * hash + c as int) == k * TWO_32;
    Clock.DivModUnique(k * TWO_32, TWO_32, k, 0);
    Int32Congruent(c as int + (w - hash), 31 * hash + c as int);
  }

  function Abs(x: int): nat
  {
    if x < 0 then -x else x
  }

  /** Palette index of a teacher id: `Math.abs(hash) % 10`. */
  function ColorIndex(teacherId: string): (i: nat)
    ensures i < |TEACHER_COLORS|
  {
    Abs(Hash(teacherId)) % |TEACHER_COLORS|
  }

  /** `getTeacherColor`: the default grey for an empty id, otherwise the
      palette entry chosen by the rolling hash. */
  method GetTeacherColor(teacherId: string) returns (color: string)
    ensures teacherId == "" ==> color == DEFAULT_COLOR
    ensures teacherId != "" ==> color == TEACHER_COLORS[ColorIndex(teacherId)]
    ensures color == DEFAULT_COLOR || color in TEACHER_COLORS
    ensures |color| == 7 && color[0] == '#'
  {
    if teacherId == "" {
      return DEFAULT_COLOR;
    }
    var hash := 0;
    for i := 0 to |teacherId|
      invariant hash == Hash(teacherId[..i])
    {
      assert teacherId[..i + 1][..i] == teacherId[..i];
      hash := teacherId[i] as int + (Int32(hash * 32) - hash);
      hash := Int32(hash);
    }
    assert teacherId[..|teacherId|] == teacherId;
    var index := Abs(hash) % |TEACHER_COLORS|;
    color := TEACHER_COLORS[index];
  }
}
