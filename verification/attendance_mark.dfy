/** The attendance marking page: the rows of the class list with their
    statuses, the merge of the records already saved for the day, the
    row selection, the status counts, bulk marking and the records a save
    writes. */
module AttendanceMark {
  import opened Wrappers
  import opened Seqs
  import opened Text
  import opened Domain
  import AttendanceReport

  /** A student of the class list with the status and remarks being
      entered; the status is unset until the page fills it. */
  datatype MarkRow = MarkRow(student: Student, status: Option<AttendanceStatus>, remarks: string)

  function RowIds(rows: seq<MarkRow>): (r: seq<Id>)
    ensures |r| == |rows|
    ensures forall i :: 0 <= i < |rows| ==> r[i] == rows[i].student.id
  {
    seq(|rows|, i requires 0 <= i < |rows| => rows[i].student.id)
  }

  // ---------------------------------------------------------------------
  // Loading what was saved before

  /** The position of the last record of a student, or -1. */
  function LastIndexFor(records: seq<Attendance>, sid: Id): (r: int)
    ensures -1 <= r < |records|
    ensures r >= 0 ==> records[r].studentId == sid
    ensures forall j :: r < j < |records| ==> records[j].studentId != sid
    decreases |records|
  {
    if |records| == 0 then -1
    else if records[|records| - 1].studentId == sid then |records| - 1
    else
      var init := records[..|records| - 1];
      assert forall j :: 0 <= j < |init| ==> init[j] == records[j];
      LastIndexFor(init, sid)
  }

  /** The record the page's map keeps for a student: the last one, since
      `Map.set` overwrites. */
  function LastRecordFor(records: seq<Attendance>, sid: Id): (r: Option<Attendance>)
    ensures r.None? <==> forall i :: 0 <= i < |records| ==> records[i].studentId != sid
    ensures r.Some? ==>
              exists i :: 0 <= i < |records| && records[i] == r.value && r.value.studentId == sid
                          && forall j :: i < j < |records| ==> records[j].studentId != sid
  {
    var i := LastIndexFor(records, sid);
    if i < 0 then None else Some(records[i])
  }

  /** One row after the merge: the student's saved status and remarks, or
      present with no remarks when nothing was saved for them. */
  function MergeRow(row: MarkRow, records: seq<Attendance>): MarkRow {
    match LastRecordFor(records, row.student.id)
    case Some(a) => row.(status := Some(a.status), remarks := a.remarks.GetOr(""))
    case None => row.(status := Some(Present), remarks := "")
  }

  /** `loadExistingAttendance`: with saved records every row is merged and
      the selection becomes the students of the records; without them
      every row is reset to present and every student is selected. */
  function MergeExisting(rows: seq<MarkRow>, records: seq<Attendance>): (r: (seq<MarkRow>, seq<Id>))
    ensures |r.0| == |rows|
    ensures forall i :: 0 <= i < |rows| ==> r.0[i].student == rows[i].student && r.0[i].status.Some?
    ensures forall i :: 0 <= i < |rows| && LastRecordFor(records, rows[i].student.id).None? ==>
              r.0[i].status == Some(Present) && r.0[i].remarks == ""
    ensures forall i :: 0 <= i < |rows| && LastRecordFor(records, rows[i].student.id).Some? ==>
              && r.0[i].status == Some(LastRecordFor(records, rows[i].student.id).value.status)
              && r.0[i].remarks == LastRecordFor(records, rows[i].student.id).value.remarks.GetOr("")
    ensures |records| > 0 ==> |r.1| == |records| && forall i :: 0 <= i < |records| ==> r.1[i] == records[i].studentId
    ensures |records| == 0 ==> r.1 == RowIds(rows)
  {
    var merged := seq(|rows|, i requires 0 <= i < |rows| => MergeRow(rows[i], records));
    if |records| > 0 then
      (merged, seq(|records|, i requires 0 <= i < |records| => records[i].studentId))
    else (merged, RowIds(rows))
  }

  /** After loading, a student is selected exactly when a record of theirs
      was saved, or, when none were, always. */
  lemma MergeSelectsSaved(rows: seq<MarkRow>, records: seq<Attendance>, i: nat)
    requires i < |rows|
    ensures var selected := MergeExisting(rows, records).1;
            rows[i].student.id in selected
            <==> |records| == 0 || LastRecordFor(records, rows[i].student.id).Some?
  {
    var selected := MergeExisting(rows, records).1;
    var sid := rows[i].student.id;
    if |records| > 0 && LastRecordFor(records, sid).Some? {
      var k :| 0 <= k < |records| && records[k] == LastRecordFor(records, sid).value;
      assert selected[k] == sid;
    }
    if |records| == 0 {
      assert selected[i] == sid;
    }
  }

  /** The status loaded for a student with a saved record is the one the
      monthly report shows for that day, when all records are of that day. */
  lemma MergeAgreesWithReport(rows: seq<MarkRow>, records: seq<Attendance>, i: nat, day: nat)
    requires i < |rows|
    requires forall k :: 0 <= k < |records| ==> records[k].date.day == day
    requires LastRecordFor(records, rows[i].student.id).Some?
    ensures AttendanceReport.Code(MergeExisting(rows, records).0[i].status.value)
            == AttendanceReport.LastCode(records, rows[i].student.id, day)
  {
    var sid := rows[i].student.id;
    LastCodeIsLastRecord(records, sid, day);
  }

  /** On records of a single day, the report's last code of a student is
      the code of the last record of that student. */
  lemma {:induction false} LastCodeIsLastRecord(records: seq<Attendance>, sid: Id, day: nat)
    requires forall k :: 0 <= k < |records| ==> records[k].date.day == day
    ensures LastRecordFor(records, sid).Some? ==>
              AttendanceReport.LastCode(records, sid, day) == AttendanceReport.Code(LastRecordFor(records, sid).value.status)
    decreases |records|
  {
    if |records| > 0 {
      var init := records[..|records| - 1];
      LastCodeIsLastRecord(init, sid, day);
    }
  }

  // ---------------------------------------------------------------------
  // Editing rows

  /** `handleStatusChange`: the status of one student's rows. */
  function SetStatus(rows: seq<MarkRow>, sid: Id, status: AttendanceStatus): (r: seq<MarkRow>)
    ensures |r| == |rows|
    ensures forall i :: 0 <= i < |rows| ==>
              if rows[i].student.id == sid then r[i] == rows[i].(status := Some(status)) else r[i] == rows[i]
  {
    seq(|rows|, i requires 0 <= i < |rows| =>
      if rows[i].student.id == sid then rows[i].(status := Some(status)) else rows[i])
  }

  /** `handleRemarksChange`: the remarks of one student's rows. */
  function SetRemarks(rows: seq<MarkRow>, sid: Id, remarks: string): (r: seq<MarkRow>)
    ensures |r| == |rows|
    ensures forall i :: 0 <= i < |rows| ==>
              if rows[i].student.id == sid then r[i] == rows[i].(remarks := remarks) else r[i] == rows[i]
  {
    seq(|rows|, i requires 0 <= i < |rows| =>
      if rows[i].student.id == sid then rows[i].(remarks := remarks) else rows[i])
  }

  /** `handleMarkAll`: every selected student gets the status; the rest
      are untouched. */
  function MarkAll(rows: seq<MarkRow>, selected: seq<Id>, status: AttendanceStatus): (r: seq<MarkRow>)
    ensures |r| == |rows|
    ensures forall i :: 0 <= i < |rows| ==> r[i].student == rows[i].student && r[i].remarks == rows[i].remarks
    ensures forall i :: 0 <= i < |rows| ==>
              (rows[i].student.id in selected ==> r[i].status == Some(status))
              && (rows[i].student.id !in selected ==> r[i] == rows[i])
  {
    seq(|rows|, i requires 0 <= i < |rows| =>
      if rows[i].student.id in selected then rows[i].(status := Some(status)) else rows[i])
  }

  /** Marking all is the same as setting the status of each selected
      student in turn, and doing it twice changes nothing more. */
  lemma MarkAllIdempotent(rows: seq<MarkRow>, selected: seq<Id>, status: AttendanceStatus)
    ensures MarkAll(MarkAll(rows, selected, status), selected, status) == MarkAll(rows, selected, status)
  {
  }

  // ---------------------------------------------------------------------
  // Selection

  function OtherId(id: Id): Id -> bool {
    (x: Id) => x != id
  }

  /** `handleRowSelect`: removes the id if present, else appends it. */
  function RowSelect(selected: seq<Id>, id: Id): (r: seq<Id>)
    ensures id in r <==> id !in selected
    ensures forall x :: x != id ==> (x in r <==> x in selected)
  {
    if id in selected then Filter(selected, OtherId(id)) else selected + [id]
  }

  /** Toggling the same row twice restores the selection as a set. */
  lemma RowSelectTwice(selected: seq<Id>, id: Id)
    ensures forall x :: x in RowSelect(RowSelect(selected, id), id) <==> x in selected
  {
  }

  /** `handleSelectAll`: clears when the selection is as long as the shown
      list, otherwise selects every shown row. */
  function SelectAllRows(selected: seq<Id>, shown: seq<MarkRow>): (r: seq<Id>)
    ensures |selected| == |shown| ==> r == []
    ensures |selected| != |shown| ==> forall x :: x in r <==> exists i :: 0 <= i < |shown| && shown[i].student.id == x
  {
    if |selected| == |shown| then [] else RowIds(shown)
  }

  // ---------------------------------------------------------------------
  // Search and counts

  function RowMatch(query: string): MarkRow -> bool {
    (r: MarkRow) => AttendanceReport.ReportMatch(query)(r.student)
  }

  /** The page's search box, the same test as the monthly report's. */
  function SearchRows(rows: seq<MarkRow>, query: string): (r: seq<MarkRow>)
    ensures IsSubsequence(r, rows)
    ensures forall x :: x in r <==> x in rows && AttendanceReport.ReportMatch(query)(x.student)
  {
    FilterIsSubsequence(rows, RowMatch(query));
    Filter(rows, RowMatch(query))
  }

  function HasStatus(s: AttendanceStatus): MarkRow -> bool {
    (r: MarkRow) => r.status == Some(s)
  }

  /** The four counts shown above the list. */
  function StatusCount(rows: seq<MarkRow>, s: AttendanceStatus): nat {
    Count(rows, HasStatus(s))
  }

  function StatusTotal(rows: seq<MarkRow>): nat {
    StatusCount(rows, Present) + StatusCount(rows, Absent) + StatusCount(rows, Late) + StatusCount(rows, Excused)
  }

  /** The first row adds one to exactly the count of its status, and to
      none when it has no status. */
  lemma StatusTotalCons(rows: seq<MarkRow>)
    requires |rows| > 0
    ensures StatusTotal(rows) == (if rows[0].status.Some? then 1 else 0) + StatusTotal(rows[1..])
  {
    CountCons(rows, HasStatus(Present));
    CountCons(rows, HasStatus(Absent));
    CountCons(rows, HasStatus(Late));
    CountCons(rows, HasStatus(Excused));
    var h := rows[0];
    match h.status {
      case None =>
      case Some(s) =>
        assert HasStatus(Present)(h) == (s == Present);
        assert HasStatus(Absent)(h) == (s == Absent);
        assert HasStatus(Late)(h) == (s == Late);
        assert HasStatus(Excused)(h) == (s == Excused);
    }
  }

  /** The four counts add up to the number of rows that have a status, so
      never to more than the rows shown, and to exactly that when every row
      has a status. */
  lemma {:induction false} StatusCountsBound(rows: seq<MarkRow>)
    ensures StatusTotal(rows) <= |rows|
    ensures StatusTotal(rows) == |rows| <==> forall i :: 0 <= i < |rows| ==> rows[i].status.Some?
    decreases |rows|
  {
    if |rows| > 0 {
      StatusCountsBound(rows[1..]);
      StatusTotalCons(rows);
      assert forall i :: 0 <= i < |rows[1..]| ==> rows[1..][i] == rows[i + 1];
      if rows[0].status.Some? && forall i :: 0 <= i < |rows[1..]| ==> rows[1..][i].status.Some? {
        assert forall i :: 0 <= i < |rows| ==> rows[i].status.Some? by {
          forall i | 0 <= i < |rows| ensures rows[i].status.Some? {
            if i > 0 { assert rows[i] == rows[1..][i - 1]; }
          }
        }
      }
    }
  }

  // ---------------------------------------------------------------------
  // Saving

  datatype MarkError = NoStudentSelected

  /** A row as the save inserts it. */
  datatype SavedRecord = SavedRecord(
    studentId: Id,
    programId: Option<Id>,
    scheduleId: Option<Id>,
    date: Date,
    status: AttendanceStatus,
    remarks: Option<string>)

  function SaveRecord(r: MarkRow, program: Option<Id>, schedule: Option<Id>, date: Date): SavedRecord {
    SavedRecord(r.student.id, ChosenId(program), ChosenId(schedule), date,
                r.status.GetOr(Absent), OrNull(r.remarks))
  }

  function IsSelected(selected: seq<Id>): MarkRow -> bool {
    (r: MarkRow) => r.student.id in selected
  }

  /** `handleSaveAttendance`: refuses an empty selection; otherwise one
      record per selected row of the whole class list (not only the shown
      rows), in list order. */
  function BuildSaveRecords(rows: seq<MarkRow>, selected: seq<Id>, program: Option<Id>,
                            schedule: Option<Id>, date: Date)
    : (r: Result<seq<SavedRecord>, MarkError>)
    ensures r.Err? <==> |selected| == 0
    ensures r.Ok? ==>
              var chosen := Filter(rows, IsSelected(selected));
              && |r.value| == |chosen|
              && forall i :: 0 <= i < |chosen| ==>
                   && r.value[i].studentId == chosen[i].student.id
                   && r.value[i].studentId in selected
                   && r.value[i].date == date
                   && r.value[i].programId == ChosenId(program)
                   && r.value[i].scheduleId == ChosenId(schedule)
                   && (chosen[i].status.None? ==> r.value[i].status == Absent)
                   && (chosen[i].status.Some? ==> r.value[i].status == chosen[i].status.value)
                   && r.value[i].remarks == OrNull(chosen[i].remarks)
  {
    if |selected| == 0 then Err(NoStudentSelected)
    else
      var chosen := Filter(rows, IsSelected(selected));
      Ok(seq(|chosen|, i requires 0 <= i < |chosen| => SaveRecord(chosen[i], program, schedule, date)))
  }

  /** Every selected student of the list gets a record and nobody else
      does. */
  lemma SavedStudentsAreSelected(rows: seq<MarkRow>, selected: seq<Id>, program: Option<Id>,
                                 schedule: Option<Id>, date: Date, r: MarkRow)
    requires |selected| > 0 && r in rows
    ensures var saved := BuildSaveRecords(rows, selected, program, schedule, date).value;
            r.student.id in selected <==> exists k :: 0 <= k < |saved| && saved[k].studentId == r.student.id
  {
    var chosen := Filter(rows, IsSelected(selected));
    var saved := BuildSaveRecords(rows, selected, program, schedule, date).value;
    if r.student.id in selected {
      assert r in chosen;
      var k :| 0 <= k < |chosen| && chosen[k] == r;
      assert saved[k].studentId == r.student.id;
    }
  }
}
