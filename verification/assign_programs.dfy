/** The assign-programs page: the student search, the assignment list's
    three filters, the schedule label shown on each assignment, and the
    duplicate check made before a student is enrolled in a program. */
module AssignPrograms {
  import opened Wrappers
  import opened Seqs
  import opened Text
  import opened Domain
  import Schedules
  import Dashboard

  /* ---------------------------------------------------------------- */
  /* The student search                                                */
  /* ---------------------------------------------------------------- */

  /** `filteredStudents`' test: a blank query keeps everyone; otherwise the
      lower-cased name or Form B number, or the phone as typed, must
      contain the query. */
  function StudentMatch(query: string): Student -> bool {
    (s: Student) =>
      || Trim(query) == []
      || Contains(ToLower(s.name), ToLower(query))
      || (s.phone.Some? && Contains(s.phone.value, query))
      || (s.studentId.Some? && Contains(ToLower(s.studentId.value), ToLower(query)))
  }

  function FilterStudents(students: seq<Student>, query: string): (r: seq<Student>)
    ensures IsSubsequence(r, students)
    ensures forall s :: s in r <==> s in students && StudentMatch(query)(s)
  {
    FilterIsSubsequence(students, StudentMatch(query));
    Filter(students, StudentMatch(query))
  }

  /** A query of nothing but blanks shows every student, in order. */
  lemma BlankSearchKeepsStudents(students: seq<Student>, query: string)
    requires AllSpace(query)
    ensures FilterStudents(students, query) == students
  {
    TrimEmptyIffAllSpace(query);
    FilterAll(students, StudentMatch(query));
  }

  /** A non-blank query keeps exactly the students with a field that
      contains it. */
  lemma SearchNeedsAField(students: seq<Student>, query: string, s: Student)
    requires !AllSpace(query) && s in students
    ensures s in FilterStudents(students, query) <==>
              || Contains(ToLower(s.name), ToLower(query))
              || (s.phone.Some? && Contains(s.phone.value, query))
              || (s.studentId.Some? && Contains(ToLower(s.studentId.value), ToLower(query)))
  {
    TrimEmptyIffAllSpace(query);
  }

  /* ---------------------------------------------------------------- */
  /* Names shown on an assignment                                      */
  /* ---------------------------------------------------------------- */

  function WithStudentId(id: Id): Student -> bool {
    (s: Student) => s.id == id
  }

  /** `getStudentName`: the name of the first student with the id, or
      "Unknown" when there is none or the name is empty. */
  function StudentName(students: seq<Student>, id: Id): (r: string)
    ensures r != []
    ensures (forall s :: s in students ==> s.id != id) ==> r == "Unknown"
    ensures r == "Unknown" || exists s :: s in students && s.id == id && s.name == r
  {
    var i := FindIndex(students, WithStudentId(id));
    if i < 0 || students[i].name == [] then "Unknown" else students[i].name
  }

  predicate DistinctStudentIds(students: seq<Student>) {
    forall i, j :: 0 <= i < j < |students| ==> students[i].id != students[j].id
  }

  /** With one student per id, an assignment shows its own student's name. */
  lemma StudentNameOfEnrolled(students: seq<Student>, i: nat)
    requires DistinctStudentIds(students) && i < |students| && students[i].name != []
    ensures StudentName(students, students[i].id) == students[i].name
  {
    var k := FindIndex(students, WithStudentId(students[i].id));
    assert WithStudentId(students[i].id)(students[i]);
    assert k == i;
  }

  /* ---------------------------------------------------------------- */
  /* The assignment filters                                            */
  /* ---------------------------------------------------------------- */

  /** The status drop-down: "all" or one status. */
  datatype StatusFilter = AllStatuses | OnlyStatus(status: AssignmentStatus)

  datatype AssignmentFilters = AssignmentFilters(
    query: string,
    status: StatusFilter,
    program: Option<Id>)

  /** The search step: skipped for a blank query, else the student's or the
      program's name, lower-cased, must contain the lower-cased query. */
  predicate PassesSearch(students: seq<Student>, programs: seq<Program>, query: string, a: Assignment) {
    || Trim(query) == []
    || Contains(ToLower(StudentName(students, a.studentId)), ToLower(query))
    || Contains(ToLower(Dashboard.ProgramName(programs, a.programId)), ToLower(query))
  }

  /** The status step: a row without a status matches no chosen status. */
  predicate PassesStatus(filter: StatusFilter, a: Assignment) {
    filter.AllStatuses? || a.status == Some(filter.status)
  }

  /** The program step: no program chosen (null) lets every row through. */
  predicate PassesProgram(program: Option<Id>, a: Assignment) {
    program.None? || a.programId == program.value
  }

  function Visible(students: seq<Student>, programs: seq<Program>, f: AssignmentFilters): Assignment -> bool {
    (a: Assignment) =>
      PassesSearch(students, programs, f.query, a) && PassesStatus(f.status, a) && PassesProgram(f.program, a)
  }

  /** `filteredAssignments`: the rows that pass the three steps together,
      in their listed order. */
  function FilterAssignments(students: seq<Student>, programs: seq<Program>,
                             assignments: seq<Assignment>, f: AssignmentFilters): (r: seq<Assignment>)
    ensures IsSubsequence(r, assignments)
    ensures forall a :: a in r <==>
              && a in assignments
              && PassesSearch(students, programs, f.query, a)
              && PassesStatus(f.status, a)
              && PassesProgram(f.program, a)
  {
    FilterIsSubsequence(assignments, Visible(students, programs, f));
    Filter(assignments, Visible(students, programs, f))
  }

  /** With a blank search, "all" statuses and no program the whole list is
      shown. */
  lemma NoFiltersShowAll(students: seq<Student>, programs: seq<Program>,
                         assignments: seq<Assignment>, query: string)
    requires AllSpace(query)
    ensures FilterAssignments(students, programs, assignments, AssignmentFilters(query, AllStatuses, None)) == assignments
  {
    TrimEmptyIffAllSpace(query);
    FilterAll(assignments, Visible(students, programs, AssignmentFilters(query, AllStatuses, None)));
  }

  function StatusStep(filter: StatusFilter): Assignment -> bool {
    (a: Assignment) => PassesStatus(filter, a)
  }

  function ProgramStep(program: Option<Id>): Assignment -> bool {
    (a: Assignment) => PassesProgram(program, a)
  }

  /** The filters are independent: with a blank search, applying the
      status filter and then the program filter gives the same list. */
  lemma {:induction false} FiltersCompose(students: seq<Student>, programs: seq<Program>,
                                         assignments: seq<Assignment>, query: string,
                                         status: StatusFilter, program: Option<Id>)
    requires AllSpace(query)
    ensures FilterAssignments(students, programs, assignments, AssignmentFilters(query, status, program))
            == Filter(Filter(assignments, StatusStep(status)), ProgramStep(program))
    decreases |assignments|
  {
    TrimEmptyIffAllSpace(query);
    if |assignments| > 0 {
      FiltersCompose(students, programs, assignments[1..], query, status, program);
    }
  }

  /** The list shows a row without a status as "active", yet the "active"
      filter hides it. */
  lemma UnsetStatusHiddenByActive(students: seq<Student>, programs: seq<Program>, a: Assignment, query: string)
    requires a.status.None? && AllSpace(query)
    ensures a.status.GetOr(AssignmentActive) == AssignmentActive
    ensures a in FilterAssignments(students, programs, [a], AssignmentFilters(query, AllStatuses, None))
    ensures a !in FilterAssignments(students, programs, [a], AssignmentFilters(query, OnlyStatus(AssignmentActive), None))
  {
    TrimEmptyIffAllSpace(query);
  }

  /* ---------------------------------------------------------------- */
  /* The schedule label                                                */
  /* ---------------------------------------------------------------- */

  /** `days[schedule.day_of_week]` in a template string: a number outside
      0..6 indexes past the list and prints "undefined". */
  function DayLabel(day: int): (r: string)
    ensures 0 <= day < 7 ==> r == Schedules.DayName(day)
    ensures !(0 <= day < 7) ==> r == "undefined"
  {
    if 0 <= day < |Schedules.DayLabels| then Schedules.DayLabels[day] else "undefined"
  }

  function WithScheduleId(id: Id): Schedule -> bool {
    (s: Schedule) => s.id == id
  }

  function SlotText(s: Schedule): string {
    DayLabel(s.dayOfWeek) + " " + s.startTime + "-" + s.endTime
  }

  /** `getScheduleDisplay`: null for no schedule (or the falsy id 0) and
      for an id not among the loaded schedules; otherwise the first such
      schedule's "Day start-end". */
  function ScheduleDisplay(schedules: seq<Schedule>, scheduleId: Option<Id>): (r: Option<string>)
    ensures r.None? <==> ChosenId(scheduleId).None? || forall s :: s in schedules ==> s.id != scheduleId.value
    ensures r.Some? ==> exists s :: s in schedules && s.id == scheduleId.value && r.value == SlotText(s)
  {
    if ChosenId(scheduleId).None? then None
    else
      var i := FindIndex(schedules, WithScheduleId(scheduleId.value));
      if i < 0 then None
      else Some(SlotText(schedules[i]))
  }

  predicate DistinctScheduleIds(schedules: seq<Schedule>) {
    forall i, j :: 0 <= i < j < |schedules| ==> schedules[i].id != schedules[j].id
  }

  /** With one schedule per id, an assignment's schedule is labelled with
      its own day name (the schedules page's) and times. */
  lemma ScheduleDisplayOfSlot(schedules: seq<Schedule>, i: nat)
    requires DistinctScheduleIds(schedules) && i < |schedules| && schedules[i].id != 0
    requires 0 <= schedules[i].dayOfWeek < 7
    ensures ScheduleDisplay(schedules, Some(schedules[i].id))
            == Some(Schedules.DayName(schedules[i].dayOfWeek) + " " + schedules[i].startTime + "-" + schedules[i].endTime)
  {
    var k := FindIndex(schedules, WithScheduleId(schedules[i].id));
    assert WithScheduleId(schedules[i].id)(schedules[i]);
    assert k == i;
  }

  /* ---------------------------------------------------------------- */
  /* Enrolling a student                                               */
  /* ---------------------------------------------------------------- */

  /** The assign dialog's fields. */
  datatype AssignForm = AssignForm(
    student: Option<Student>,
    program: Option<Program>,
    schedule: Option<Id>,
    enrollmentDate: string,
    status: AssignmentStatus)

  datatype AssignError = MissingSelection | AlreadyAssigned

  function SamePair(studentId: Id, programId: Id): Assignment -> bool {
    (a: Assignment) => a.studentId == studentId && a.programId == programId
  }

  /** The rows already enrolling the student in the program. */
  function Enrolments(assignments: seq<Assignment>, studentId: Id, programId: Id): nat {
    Count(assignments, SamePair(studentId, programId))
  }

  /** `handleAssignProgram`: a student and a program must be chosen. The
      duplicate check asks for the one existing row with `.single()`, which
      yields a row only when there is exactly one, so the save is refused
      exactly then. Otherwise a row is added with the chosen status and date
      and the schedule only when one (not the falsy 0) is chosen. */
  function AssignProgram(assignments: seq<Assignment>, f: AssignForm, newId: Id)
    : (r: Result<seq<Assignment>, AssignError>)
    ensures (f.student.None? || f.program.None?) ==> r == Err(MissingSelection)
    ensures r == Err(AlreadyAssigned) <==>
              f.student.Some? && f.program.Some? && Enrolments(assignments, f.student.value.id, f.program.value.id) == 1
    ensures r.Ok? ==>
              && |r.value| == |assignments| + 1
              && r.value[..|assignments|] == assignments
              && var row := r.value[|assignments|];
                 && row.id == newId
                 && row.studentId == f.student.value.id && row.programId == f.program.value.id
                 && row.scheduleId == ChosenId(f.schedule)
                 && row.enrollmentDate == Some(f.enrollmentDate)
                 && row.status == Some(f.status)
  {
    if f.student.None? || f.program.None? then Err(MissingSelection)
    else if Enrolments(assignments, f.student.value.id, f.program.value.id) == 1 then Err(AlreadyAssigned)
    else
      var row := Assignment(newId, f.student.value.id, f.program.value.id, ChosenId(f.schedule),
                            Some(f.enrollmentDate), Some(f.status));
      Ok(assignments + [row])
  }

  /** Every (student, program) pair present is enrolled once. */
  predicate UniquePairs(assignments: seq<Assignment>) {
    forall a :: a in assignments ==> Enrolments(assignments, a.studentId, a.programId) == 1
  }

  /** While every pair is enrolled once, assigning keeps it so: the guard
      refuses a pair that is present and a new pair is added once. */
  lemma AssignKeepsPairsUnique(assignments: seq<Assignment>, f: AssignForm, newId: Id)
    requires UniquePairs(assignments)
    ensures var r := AssignProgram(assignments, f, newId);
            r.Ok? ==> UniquePairs(r.value)
  {
    var r := AssignProgram(assignments, f, newId);
    if r.Ok? {
      var sid, pid := f.student.value.id, f.program.value.id;
      var row := r.value[|assignments|];
      assert r.value == assignments + [row];
      // no row has the new pair: one that had would be enrolled once
      assert forall i :: 0 <= i < |assignments| ==> !SamePair(sid, pid)(assignments[i]);
      FilterNone(assignments, SamePair(sid, pid));
      forall a | a in r.value
        ensures Enrolments(r.value, a.studentId, a.programId) == 1
      {
        FilterAppend(assignments, [row], SamePair(a.studentId, a.programId));
        if a in assignments {
          assert !SamePair(a.studentId, a.programId)(row);
          assert Filter([row], SamePair(a.studentId, a.programId)) == [];
        } else {
          assert a == row;
          assert Filter([row], SamePair(a.studentId, a.programId)) == [row];
        }
      }
    }
  }

  /** `.single()` fails on two rows as it does on none, so a pair already
      enrolled twice is enrolled a third time. */
  lemma SecondDuplicateAdmitsThird(assignments: seq<Assignment>, f: AssignForm, newId: Id)
    requires f.student.Some? && f.program.Some?
    requires Enrolments(assignments, f.student.value.id, f.program.value.id) == 2
    ensures var r := AssignProgram(assignments, f, newId);
            r.Ok? && Enrolments(r.value, f.student.value.id, f.program.value.id) == 3
  {
    var r := AssignProgram(assignments, f, newId);
    var row := r.value[|assignments|];
    assert r.value == assignments + [row];
    FilterAppend(assignments, [row], SamePair(f.student.value.id, f.program.value.id));
  }
}
