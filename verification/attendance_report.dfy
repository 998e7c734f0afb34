/** The monthly attendance report: the student-by-day matrix of status
    codes, the working days of the month, the average attendance, the
    absent count under each day and the student search box. The calendar
    (the length of the month and which of its days are Sundays) is given. */
module AttendanceReport {
  import opened Wrappers
  import opened Seqs
  import opened Text
  import opened Numbers
  import opened Domain

  /** The code shown in a matrix cell; a day without a record shows `-`. */
  const NoRecord: string := "-"

  function Code(s: AttendanceStatus): (r: string)
    ensures r != NoRecord && |r| > 0
  {
    match s
    case Present => "P"
    case Absent => "A"
    case Late => "Lt"
    case Excused => "E"
  }

  /** Different statuses show different codes. */
  lemma CodeInjective(a: AttendanceStatus, b: AttendanceStatus)
    requires Code(a) == Code(b)
    ensures a == b
  {
  }

  /** A record of this student on this day of the month. */
  predicate OnDay(r: Attendance, sid: Id, day: nat) {
    r.studentId == sid && r.date.day == day
  }

  /** The position of the last record of this student on this day, or -1. */
  function LastOnDay(records: seq<Attendance>, sid: Id, day: nat): (k: int)
    ensures -1 <= k < |records|
    ensures k >= 0 ==> OnDay(records[k], sid, day)
    ensures forall j :: k < j < |records| ==> !OnDay(records[j], sid, day)
    decreases |records|
  {
    if |records| == 0 then -1
    else if OnDay(records[|records| - 1], sid, day) then |records| - 1
    else
      var init := records[..|records| - 1];
      assert forall j :: 0 <= j < |init| ==> init[j] == records[j];
      LastOnDay(init, sid, day)
  }

  /** The cell for a student and a day: the code of the last record of that
      student on that day, later records overwriting earlier ones. */
  function LastCode(records: seq<Attendance>, sid: Id, day: nat): (r: string)
    ensures r == NoRecord <==> forall i :: 0 <= i < |records| ==> !OnDay(records[i], sid, day)
    ensures r != NoRecord ==>
              exists i :: 0 <= i < |records| && OnDay(records[i], sid, day) && r == Code(records[i].status)
                          && forall j :: i < j < |records| ==> !OnDay(records[j], sid, day)
  {
    var k := LastOnDay(records, sid, day);
    if k < 0 then NoRecord else Code(records[k].status)
  }

  /** The matrix as the report defines it: a row per loaded student, a
      column per day of the month. */
  function Matrix(students: seq<Student>, records: seq<Attendance>, daysInMonth: nat): (m: seq<seq<string>>)
    ensures |m| == |students|
    ensures forall i :: 0 <= i < |m| ==> |m[i]| == daysInMonth
  {
    seq(|students|, i requires 0 <= i < |students| =>
      seq(daysInMonth, d requires 0 <= d < daysInMonth => LastCode(records, students[i].id, d + 1)))
  }

  /** The per-student, per-day lookup table the page fills first. */
  function Lookup(att: map<Id, map<nat, string>>, sid: Id, day: nat): string {
    if sid in att && day in att[sid] then att[sid][day] else NoRecord
  }

  /** One step of the page's `forEach`: the record's code overwrites the
      cell of its student and day. */
  function Enter(att: map<Id, map<nat, string>>, r: Attendance): map<Id, map<nat, string>> {
    var row := if r.studentId in att then att[r.studentId] else map[];
    att[r.studentId := row[r.date.day := Code(r.status)]]
  }

  /** Entering records one by one keeps the table equal to "last record
      wins" over the records entered so far. */
  lemma EnterKeepsLastCode(att: map<Id, map<nat, string>>, entered: seq<Attendance>, r: Attendance)
    requires forall sid, day :: Lookup(att, sid, day) == LastCode(entered, sid, day)
    ensures forall sid, day :: Lookup(Enter(att, r), sid, day) == LastCode(entered + [r], sid, day)
  {
    forall sid, day ensures Lookup(Enter(att, r), sid, day) == LastCode(entered + [r], sid, day) {
      var all := entered + [r];
      assert all[|all| - 1] == r;
      assert all[..|all| - 1] == entered;
      if !OnDay(r, sid, day) {
        assert Lookup(Enter(att, r), sid, day) == Lookup(att, sid, day);
      }
    }
  }

  /** Builds the matrix the way the page does: one pass over the records
      filling a lookup table, then one row per student read from it. The
      result is the matrix the report defines. */
  method BuildMatrix(students: seq<Student>, records: seq<Attendance>, daysInMonth: nat)
    returns (m: seq<seq<string>>)
    ensures m == Matrix(students, records, daysInMonth)
  {
    var att: map<Id, map<nat, string>> := map[];
    var k := 0;
    while k < |records|
      invariant 0 <= k <= |records|
      invariant forall sid, day :: Lookup(att, sid, day) == LastCode(records[..k], sid, day)
    {
      EnterKeepsLastCode(att, records[..k], records[k]);
      assert records[..k + 1] == records[..k] + [records[k]];
      att := Enter(att, records[k]);
      k := k + 1;
    }
    assert records[..k] == records;
    m := seq(|students|, i requires 0 <= i < |students| =>
      seq(daysInMonth, d requires 0 <= d < daysInMonth => Lookup(att, students[i].id, d + 1)));
    var spec := Matrix(students, records, daysInMonth);
    forall i | 0 <= i < |students| ensures m[i] == spec[i] {
      assert forall d :: 0 <= d < daysInMonth ==> m[i][d] == spec[i][d];
    }
  }

  // ---------------------------------------------------------------------
  // Working days and the average

  /** The days that had at least one record and are not Sundays. */
  function WorkingDays(records: seq<Attendance>, sundays: set<nat>): (w: set<nat>)
    ensures forall d :: d in w <==> d !in sundays && exists r :: r in records && r.date.day == d
  {
    set r | r in records && r.date.day !in sundays :: r.date.day
  }

  /** There are no more working days than days in the month. */
  lemma WorkingDaysBound(records: seq<Attendance>, sundays: set<nat>, daysInMonth: nat)
    requires forall r :: r in records ==> 1 <= r.date.day <= daysInMonth
    ensures |WorkingDays(records, sundays)| <= daysInMonth
  {
    DayRangeSize(daysInMonth);
    forall d | d in WorkingDays(records, sundays) ensures d in DayRange(daysInMonth) {
      DayRangeMembers(daysInMonth, d);
    }
    SubsetSize(WorkingDays(records, sundays), DayRange(daysInMonth));
  }

  predicate Attended(code: string) {
    code == "P" || code == "Lt"
  }

  /** The working days on which a row shows present or late. A working day
      past the end of the row reads as no record. */
  function AttendedDays(row: seq<string>, working: set<nat>): (r: set<nat>)
    ensures r <= working
    ensures forall d :: d in r <==> d in working && 1 <= d <= |row| && Attended(row[d - 1])
  {
    set d | d in working && 1 <= d <= |row| && Attended(row[d - 1])
  }

  /** `presentCount`: the present and late cells on working days. */
  function AttendedCount(matrix: seq<seq<string>>, working: set<nat>): nat
    decreases |matrix|
  {
    if |matrix| == 0 then 0
    else |AttendedDays(matrix[0], working)| + AttendedCount(matrix[1..], working)
  }

  /** Each row contributes at most one count per working day. */
  lemma {:induction false} AttendedCountBound(matrix: seq<seq<string>>, working: set<nat>)
    ensures AttendedCount(matrix, working) <= |matrix| * |working|
    decreases |matrix|
  {
    if |matrix| > 0 {
      SubsetSize(AttendedDays(matrix[0], working), working);
      AttendedCountBound(matrix[1..], working);
    }
  }

  /** The average attendance: present and late cells on working days as a
      rounded percentage of students times working days, 0 when either is
      zero. */
  function AverageAttendance(studentCount: nat, matrix: seq<seq<string>>, working: set<nat>): (r: int)
    ensures studentCount * |working| == 0 ==> r == 0
    ensures studentCount * |working| > 0 ==>
              r as real - 0.5
              <= AttendedCount(matrix, working) as real / (studentCount * |working|) as real * 100.0
              < r as real + 0.5
  {
    Percent(AttendedCount(matrix, working), studentCount * |working|)
  }

  /** With one row per student the average is a percentage in 0..100. */
  lemma AverageAttendanceInRange(students: seq<Student>, records: seq<Attendance>, daysInMonth: nat,
                                 sundays: set<nat>)
    ensures var m := Matrix(students, records, daysInMonth);
            0 <= AverageAttendance(|students|, m, WorkingDays(records, sundays)) <= 100
  {
    var m := Matrix(students, records, daysInMonth);
    var w := WorkingDays(records, sundays);
    AttendedCountBound(m, w);
  }

  // ---------------------------------------------------------------------
  // The absent row and the search box

  /** `students.findIndex(s => s.id === id)`: the first position, or -1. */
  function FindStudent(students: seq<Student>, id: Id): (r: int)
    ensures -1 <= r < |students|
    ensures r == -1 <==> forall i :: 0 <= i < |students| ==> students[i].id != id
    ensures r >= 0 ==> students[r].id == id && forall i :: 0 <= i < r ==> students[i].id != id
    decreases |students|
  {
    if |students| == 0 then -1
    else if students[0].id == id then 0
    else
      var r := FindStudent(students[1..], id);
      if r == -1 then -1 else r + 1
  }

  predicate Missed(code: string) {
    code == "A" || code == "E"
  }

  /** The cell of the matrix for a student on a 0-based day, or no record
      when the student or the day is outside the matrix. */
  function CellOf(students: seq<Student>, matrix: seq<seq<string>>, s: Student, dayIdx: nat): string {
    var i := FindStudent(students, s.id);
    if 0 <= i < |matrix| && dayIdx < |matrix[i]| then matrix[i][dayIdx] else NoRecord
  }

  function MissedCount(shown: seq<Student>, students: seq<Student>, matrix: seq<seq<string>>, dayIdx: nat): (n: nat)
    ensures n <= |shown|
    decreases |shown|
  {
    if |shown| == 0 then 0
    else (if Missed(CellOf(students, matrix, shown[0], dayIdx)) then 1 else 0)
         + MissedCount(shown[1..], students, matrix, dayIdx)
  }

  /** The summary cell under a day: nothing on a Sunday, otherwise how many
      of the shown students were absent or excused. */
  function AbsentSummary(shown: seq<Student>, students: seq<Student>, matrix: seq<seq<string>>,
                         dayIdx: nat, isSunday: bool): (r: Option<nat>)
    ensures r.None? <==> isSunday
    ensures r.Some? ==> r.value <= |shown|
  {
    if isSunday then None else Some(MissedCount(shown, students, matrix, dayIdx))
  }

  function MissedOn(records: seq<Attendance>, dayIdx: nat): Student -> bool {
    (s: Student) => Missed(LastCode(records, s.id, dayIdx + 1))
  }

  /** Read against the records: the summary counts exactly the shown
      students whose last record of the day is absent or excused. */
  lemma {:induction false} MissedCountFromRecords(shown: seq<Student>, students: seq<Student>,
                                                  records: seq<Attendance>, daysInMonth: nat, dayIdx: nat)
    requires forall s :: s in shown ==> s in students
    requires dayIdx < daysInMonth
    ensures MissedCount(shown, students, Matrix(students, records, daysInMonth), dayIdx)
            == |Filter(shown, MissedOn(records, dayIdx))|
    decreases |shown|
  {
    if |shown| > 0 {
      var m := Matrix(students, records, daysInMonth);
      var s := shown[0];
      var i := FindStudent(students, s.id);
      assert s in students;
      assert i >= 0;
      assert CellOf(students, m, s, dayIdx) == LastCode(records, s.id, dayIdx + 1);
      assert forall t :: t in shown[1..] ==> t in shown;
      MissedCountFromRecords(shown[1..], students, records, daysInMonth, dayIdx);
    }
  }

  /** The report's search: name or father name containing the query,
      both lower-cased, or the phone containing the query as typed. */
  function ReportMatch(query: string): Student -> bool {
    (s: Student) =>
      || Contains(ToLower(s.name), ToLower(query))
      || (s.fatherName.Some? && Contains(ToLower(s.fatherName.value), ToLower(query)))
      || (s.phone.Some? && Contains(s.phone.value, query))
  }

  function SearchReport(students: seq<Student>, query: string): (r: seq<Student>)
    ensures IsSubsequence(r, students)
    ensures forall s :: s in r <==> s in students && ReportMatch(query)(s)
  {
    FilterIsSubsequence(students, ReportMatch(query));
    Filter(students, ReportMatch(query))
  }

  /** An empty search shows every student. */
  lemma SearchReportEmpty(students: seq<Student>)
    ensures SearchReport(students, "") == students
  {
    forall i | 0 <= i < |students| ensures ReportMatch("")(students[i]) {
      ContainsEmpty(ToLower(students[i].name));
    }
    FilterAll(students, ReportMatch(""));
  }
}
