/** The admission form: its digit-only mobile inputs, the two required
    names and the student row a successful submit inserts. */
module Admission {
  import opened Wrappers
  import opened Seqs
  import opened Text
  import opened Domain
  import Students

  /** The form's texts that become columns of the student model; every
      input starts as the empty string. */
  datatype AdmissionForm = AdmissionForm(
    name: string,
    phone: string,
    studentId: string,
    fatherName: string,
    fatherMobile: string,
    motherName: string,
    motherMobile: string)

  /** Typing into a mobile input keeps only the typed digits. */
  function TypeMobile(f: AdmissionForm, field: Students.MobileField, typed: string): (r: AdmissionForm)
    ensures r.name == f.name && r.studentId == f.studentId
    ensures r.fatherName == f.fatherName && r.motherName == f.motherName
    ensures field == Students.Phone ==> r.phone == DigitsOnly(typed) && r.fatherMobile == f.fatherMobile && r.motherMobile == f.motherMobile
    ensures field == Students.FatherMobile ==> r.fatherMobile == DigitsOnly(typed) && r.phone == f.phone && r.motherMobile == f.motherMobile
    ensures field == Students.MotherMobile ==> r.motherMobile == DigitsOnly(typed) && r.phone == f.phone && r.fatherMobile == f.fatherMobile
  {
    match field
    case Phone => f.(phone := DigitsOnly(typed))
    case FatherMobile => f.(fatherMobile := DigitsOnly(typed))
    case MotherMobile => f.(motherMobile := DigitsOnly(typed))
  }

  datatype AdmissionError = NameRequired | FatherNameRequired

  /** `handleSubmit`: the student's name, then the father's name, must
      have something besides blanks; the row stores the texts as typed
      (untrimmed), empty texts as null, and the status "active". */
  function Admit(f: AdmissionForm, newId: Id): (r: Result<Student, AdmissionError>)
    ensures r == Err(NameRequired) <==> AllSpace(f.name)
    ensures r == Err(FatherNameRequired) <==> !AllSpace(f.name) && AllSpace(f.fatherName)
    ensures r.Ok? ==>
              && r.value.id == newId
              && r.value.name == f.name && r.value.name != []
              && r.value.phone == OrNull(f.phone) && r.value.studentId == OrNull(f.studentId)
              && r.value.fatherName == Some(f.fatherName)
              && r.value.fatherMobile == OrNull(f.fatherMobile)
              && r.value.motherName == OrNull(f.motherName) && r.value.motherMobile == OrNull(f.motherMobile)
              && r.value.status == Some(StudentActive)
  {
    TrimEmptyIffAllSpace(f.name);
    TrimEmptyIffAllSpace(f.fatherName);
    if Trim(f.name) == [] then Err(NameRequired)
    else if Trim(f.fatherName) == [] then Err(FatherNameRequired)
    else Ok(Student(newId, f.name, OrNull(f.phone), OrNull(f.studentId), OrNull(f.fatherName),
                    OrNull(f.fatherMobile), OrNull(f.motherName), OrNull(f.motherMobile), Some(StudentActive)))
  }

  /** A blank (all-space) name is refused even though it is not empty. */
  lemma BlankNameRefused(f: AdmissionForm)
    requires f.name == "   "
    ensures Admit(f, 0) == Err(NameRequired)
  {
  }

  /** The row is stored as the students page would save it: opening the new
      student in the edit dialog and saving without changes rewrites
      nothing. */
  lemma AdmittedRowIsSaved(f: AdmissionForm, newId: Id)
    requires Admit(f, newId).Ok?
    ensures Students.UpdatePayload(Admit(f, newId).value) == Admit(f, newId).value
  {
    Students.SaveUnchangedRoundTrip(Admit(f, newId).value);
  }

  /** Mobiles typed through the inputs are stored as digits or null. */
  lemma AdmittedMobilesAreDigits(f: AdmissionForm, newId: Id, field: Students.MobileField, typed: string)
    requires AllDigits(f.phone) && AllDigits(f.fatherMobile) && AllDigits(f.motherMobile)
    requires Admit(TypeMobile(f, field, typed), newId).Ok?
    ensures Students.MobilesAreDigits(Admit(TypeMobile(f, field, typed), newId).value)
  {
    DigitsOnlyFixed(DigitsOnly(typed));
  }

  /** A newly admitted student is found on the students page by searching
      for the name as it was typed. */
  lemma AdmittedFoundByName(students: seq<Student>, f: AdmissionForm, newId: Id)
    requires Admit(f, newId).Ok?
    ensures var s := Admit(f, newId).value;
            s in Students.SearchStudents(students + [s], f.name)
  {
    var s := Admit(f, newId).value;
    ContainsItself(ToLower(f.name));
    assert Students.StudentSearch(f.name)(s);
    assert s in students + [s];
  }
}
