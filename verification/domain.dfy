/** The records the pages read and write, one datatype per table row shape
    of the academy database (students, programs, schedules, program
    assignments, attendance, fee plans, fee challans and fee payments).
    The tenant key `academy_no` and the audit columns (`created_at`,
    `created_by`, ...) carry no logic and are not represented. Dates other
    than attendance dates stay opaque strings. */
module Domain {
  import opened Wrappers

  type Id = nat

  /** `x || null` on a nullable number: an absent number and the falsy
      0 are both written as null. */
  function NumberOrNull(o: Option<int>): (r: Option<int>)
    ensures r.None? <==> o.None? || o.value == 0
    ensures r.Some? ==> r == o
  {
    if o.Some? && o.value != 0 then o else None
  }

  /** `x || null` on a nullable amount, the same rule as `NumberOrNull`
      for money. */
  function AmountOrNull(o: Option<real>): (r: Option<real>)
    ensures r.None? <==> o.None? || o.value == 0.0
    ensures r.Some? ==> r == o
  {
    if o.Some? && o.value != 0.0 then o else None
  }

  /** `id || null` on a nullable id: an absent id and the falsy id 0 both
      mean "none chosen". */
  function ChosenId(o: Option<Id>): (r: Option<Id>)
    ensures r.None? <==> o.None? || o.value == 0
    ensures r.Some? ==> r == o
  {
    if NumberOrNull(o).Some? then o else None
  }

  datatype StudentStatus = StudentActive | StudentInactive | StudentGraduated

  /** The fields of a student the pages compute with. */
  datatype Student = Student(
    id: Id,
    name: string,
    phone: Option<string>,
    studentId: Option<string>,       // Form B / national identity number
    fatherName: Option<string>,
    fatherMobile: Option<string>,
    motherName: Option<string>,
    motherMobile: Option<string>,
    status: Option<StudentStatus>)

  datatype ProgramStatus = ProgramActive | ProgramInactive
  datatype DurationUnit = Years | Months

  datatype Program = Program(
    id: Id,
    code: string,
    name: string,
    description: Option<string>,
    duration: Option<int>,
    durationUnit: Option<DurationUnit>,
    feeAmount: Option<real>,
    status: Option<ProgramStatus>)

  /** A weekly class slot; `dayOfWeek` 0 is Sunday, times are "HH:MM" text. */
  datatype Schedule = Schedule(
    id: Id,
    programId: Id,
    dayOfWeek: int,
    startTime: string,
    endTime: string,
    subjectName: Option<string>,
    instructorName: Option<string>,
    roomNumber: Option<string>,
    isActive: bool)

  datatype AssignmentStatus = AssignmentActive | AssignmentCompleted | AssignmentWithdrawn

  /** A row of `student_programs`: one student enrolled in one program. */
  datatype Assignment = Assignment(
    id: Id,
    studentId: Id,
    programId: Id,
    scheduleId: Option<Id>,
    enrollmentDate: Option<string>,
    status: Option<AssignmentStatus>)

  datatype AttendanceStatus = Present | Absent | Late | Excused

  datatype Date = Date(year: nat, month: nat, day: nat)

  datatype Attendance = Attendance(
    id: Id,
    studentId: Id,
    programId: Option<Id>,
    scheduleId: Option<Id>,
    date: Date,
    status: AttendanceStatus,
    remarks: Option<string>)

  /** A student's agreed fee for one program, with its discount terms. */
  datatype FeePlan = FeePlan(
    id: Id,
    studentId: Id,
    programId: Id,
    actualFee: real,
    discountAmount: real,
    discountPercent: real,
    feeAfterDiscount: real,
    effectiveFrom: string,
    discountType: Option<string>,
    discountReason: Option<string>,
    notes: Option<string>)

  datatype ChallanStatus = Pending | Paid | Overdue | Cancelled | PartiallyPaid

  /** A fee challan: a demand for `amount`, of which `paidAmount` (null
      until the first payment) has been settled. */
  datatype Challan = Challan(
    id: Id,
    feePlanId: Id,
    studentId: Id,
    programId: Id,
    number: string,
    issueDate: string,
    dueDate: string,
    amount: real,
    paidAmount: Option<real>,
    status: ChallanStatus,
    paymentDate: Option<string>,
    paymentMethod: Option<string>,
    paymentReference: Option<string>,
    notes: Option<string>)

  /** One payment settled against a challan. */
  datatype Payment = Payment(
    id: Id,
    challanId: Id,
    studentId: Id,
    amount: real,
    paymentDate: string,
    paymentMethod: Option<string>,
    paymentReference: Option<string>,
    notes: Option<string>)
}
