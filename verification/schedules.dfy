/** The class-schedules page: the checks made before a schedule is saved,
    the program filter and the day names. Times are the "HH:MM" text of a
    time input and are compared as text, as the page does. */
module Schedules {
  import opened Wrappers
  import opened Seqs
  import opened Text
  import opened Domain

  /** `DAYS_OF_WEEK`: 0 is Sunday. */
  const DayLabels: seq<string> := ["Sunday", "Monday", "Tuesday", "Wednesday", "Thursday", "Friday", "Saturday"]

  /** `getDayName`: the label of a day number, "Unknown" for any other. */
  function DayName(day: int): (r: string)
    ensures 0 <= day < 7 ==> r == DayLabels[day]
    ensures !(0 <= day < 7) ==> r == "Unknown"
  {
    if 0 <= day < |DayLabels| then DayLabels[day] else "Unknown"
  }

  /** Different days have different names, none of them "Unknown". */
  lemma DayNamesDistinct(a: int, b: int)
    requires 0 <= a < 7 && 0 <= b < 7 && a != b
    ensures DayName(a) != DayName(b) && DayName(a) != "Unknown"
  {
  }

  /** The schedule dialog's fields; the times can be unset. */
  datatype ScheduleForm = ScheduleForm(
    programId: Option<Id>,
    dayOfWeek: int,
    startTime: Option<string>,
    endTime: Option<string>,
    subjectName: string,
    instructorName: string,
    roomNumber: string,
    isActive: Option<bool>)

  datatype ScheduleError = MissingProgramOrTimes | EndNotAfterStart

  /** The row a save writes (the id is the database's). */
  datatype ScheduleRecord = ScheduleRecord(
    programId: Id,
    dayOfWeek: int,
    startTime: string,
    endTime: string,
    subjectName: Option<string>,
    instructorName: Option<string>,
    roomNumber: Option<string>,
    isActive: bool)

  /** A time the page accepts: the Save button is disabled while a time
      is falsy (unset or cleared to ""), and `handleSubmit` refuses an
      unset one. */
  predicate TimeGiven(t: Option<string>) {
    t.Some? && t.value != []
  }

  /** `handleSubmit` behind its Save button: a program (not the falsy id
      0) and both times are required, the start must sort strictly before
      the end as text, empty texts are stored as null and the active flag
      defaults to true. */
  function SaveSchedule(f: ScheduleForm): (r: Result<ScheduleRecord, ScheduleError>)
    ensures (ChosenId(f.programId).None? || !TimeGiven(f.startTime) || !TimeGiven(f.endTime)) ==> r == Err(MissingProgramOrTimes)
    ensures r.Ok? <==> ChosenId(f.programId).Some? && TimeGiven(f.startTime) && TimeGiven(f.endTime)
                       && LexLess(f.startTime.value, f.endTime.value)
    ensures r.Err? && r.error == EndNotAfterStart ==> !LexLess(f.startTime.value, f.endTime.value)
    ensures r.Ok? ==>
              && r.value.programId == f.programId.value && r.value.dayOfWeek == f.dayOfWeek
              && r.value.startTime == f.startTime.value && r.value.endTime == f.endTime.value
              && r.value.startTime != [] && r.value.endTime != []
              && r.value.subjectName == OrNull(f.subjectName)
              && r.value.instructorName == OrNull(f.instructorName)
              && r.value.roomNumber == OrNull(f.roomNumber)
              && r.value.isActive == f.isActive.GetOr(true)
  {
    if ChosenId(f.programId).None? || !TimeGiven(f.startTime) || !TimeGiven(f.endTime) then Err(MissingProgramOrTimes)
    else if !LexLess(f.startTime.value, f.endTime.value) then Err(EndNotAfterStart)
    else Ok(ScheduleRecord(f.programId.value, f.dayOfWeek, f.startTime.value, f.endTime.value,
                           OrNull(f.subjectName), OrNull(f.instructorName), OrNull(f.roomNumber),
                           f.isActive.GetOr(true)))
  }

  /** A slot that starts when it ends is never saved: refused as missing
      when the time was cleared, and as out of order otherwise. */
  lemma EmptySlotRejected(f: ScheduleForm)
    requires ChosenId(f.programId).Some? && f.startTime.Some? && f.endTime == f.startTime
    ensures SaveSchedule(f).Err?
    ensures f.startTime.value != [] ==> SaveSchedule(f) == Err(EndNotAfterStart)
    ensures f.startTime.value == [] ==> SaveSchedule(f) == Err(MissingProgramOrTimes)
  {
    LexLessIrreflexive(f.startTime.value);
  }

  /** A cleared time input never reaches the database, whatever the other
      time. */
  lemma ClearedTimeRefused(f: ScheduleForm)
    requires f.startTime == Some([]) || f.endTime == Some([])
    ensures SaveSchedule(f) == Err(MissingProgramOrTimes)
  {
  }

  /** A well-formed time of day, "HH:MM" with minutes below 60. */
  predicate IsClockTime(s: string) {
    |s| == 5 && IsDigit(s[0]) && IsDigit(s[1]) && s[2] == ':' && IsDigit(s[3]) && IsDigit(s[4])
    && s[3] <= '5'
  }

  /** Minutes since midnight of a clock time. */
  function Minutes(s: string): nat
    requires IsClockTime(s)
  {
    (DigitValue(s[0]) * 10 + DigitValue(s[1])) * 60 + DigitValue(s[3]) * 10 + DigitValue(s[4])
  }

  /** Comparing two-digit numbers is comparing their digits in turn. */
  lemma TwoDigitOrder(x0: nat, x1: nat, y0: nat, y1: nat)
    requires x1 < 10 && y1 < 10
    ensures x0 * 10 + x1 < y0 * 10 + y1 <==> x0 < y0 || (x0 == y0 && x1 < y1)
  {
  }

  /** On clock times, comparing the text is comparing the times: the
      text check is the "end after start" rule it stands for. */
  lemma ClockTextOrder(a: string, b: string)
    requires IsClockTime(a) && IsClockTime(b)
    ensures LexLess(a, b) <==> Minutes(a) < Minutes(b)
  {
    var a1, b1 := a[1..], b[1..];
    var a2, b2 := a1[1..], b1[1..];
    var a3, b3 := a2[1..], b2[1..];
    var a4, b4 := a3[1..], b3[1..];
    assert a1[0] == a[1] && b1[0] == b[1] && a2[0] == a[2] && b2[0] == b[2];
    assert a3[0] == a[3] && b3[0] == b[3] && a4[0] == a[4] && b4[0] == b[4];
    assert LexLess(a4, b4) <==> a[4] < b[4] by {
      assert |a4[1..]| == 0 && |b4[1..]| == 0;
    }
    // the text order: first differing character decides
    var textLess := a[0] < b[0] || (a[0] == b[0] && (a[1] < b[1] || (a[1] == b[1] &&
                    (a[3] < b[3] || (a[3] == b[3] && a[4] < b[4])))));
    assert LexLess(a3, b3) == if a[3] != b[3] then a[3] < b[3] else LexLess(a4, b4);
    assert a2[0] == b2[0];  // both ':'
    assert LexLess(a2, b2) == LexLess(a3, b3);
    assert LexLess(a1, b1) == if a[1] != b[1] then a[1] < b[1] else LexLess(a2, b2);
    assert LexLess(a, b) == if a[0] != b[0] then a[0] < b[0] else LexLess(a1, b1);
    assert LexLess(a, b) <==> textLess;
    var ha, hb := DigitValue(a[0]) * 10 + DigitValue(a[1]), DigitValue(b[0]) * 10 + DigitValue(b[1]);
    var ma, mb := DigitValue(a[3]) * 10 + DigitValue(a[4]), DigitValue(b[3]) * 10 + DigitValue(b[4]);
    TwoDigitOrder(DigitValue(a[0]), DigitValue(a[1]), DigitValue(b[0]), DigitValue(b[1]));
    TwoDigitOrder(DigitValue(a[3]), DigitValue(a[4]), DigitValue(b[3]), DigitValue(b[4]));
    assert ma < 60 && mb < 60;
    assert Minutes(a) < Minutes(b) <==> ha < hb || (ha == hb && ma < mb);
  }

  function OfProgram(pid: Id): Schedule -> bool {
    (s: Schedule) => s.programId == pid
  }

  /** The program filter: no program chosen (or the falsy id 0) shows
      every schedule. */
  function FilterSchedules(schedules: seq<Schedule>, program: Option<Id>): (r: seq<Schedule>)
    ensures ChosenId(program).None? ==> r == schedules
    ensures ChosenId(program).Some? ==> forall s :: s in r <==> s in schedules && s.programId == program.value
    ensures IsSubsequence(r, schedules)
  {
    match ChosenId(program)
    case None =>
      SubsequenceOfItself(schedules);
      schedules
    case Some(pid) =>
      FilterIsSubsequence(schedules, OfProgram(pid));
      Filter(schedules, OfProgram(pid))
  }
}
