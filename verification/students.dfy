/** The students list: its search box, the digit-only mobile inputs of the
    edit dialog and the row the dialog saves. */
module Students {
  import opened Wrappers
  import opened Seqs
  import opened Text
  import opened Domain

  /* ---------------------------------------------------------------- */
  /* Search                                                            */
  /* ---------------------------------------------------------------- */

  /** `text?.toLowerCase().includes(q)` on an optional text. */
  predicate HasLower(text: Option<string>, q: string) {
    text.Some? && Contains(ToLower(text.value), q)
  }

  /** The search effect's test: a blank query keeps everyone; otherwise,
      with `q` the lower-cased query, the lower-cased name, Form B number,
      father's or mother's name contains `q`, or the phone as stored does. */
  function StudentSearch(query: string): Student -> bool {
    var q := ToLower(query);
    (s: Student) =>
      || Trim(query) == []
      || Contains(ToLower(s.name), q)
      || (s.phone.Some? && Contains(s.phone.value, q))
      || HasLower(s.studentId, q)
      || HasLower(s.fatherName, q)
      || HasLower(s.motherName, q)
  }

  function SearchStudents(students: seq<Student>, query: string): (r: seq<Student>)
    ensures IsSubsequence(r, students)
    ensures forall s :: s in r <==> s in students && StudentSearch(query)(s)
  {
    FilterIsSubsequence(students, StudentSearch(query));
    Filter(students, StudentSearch(query))
  }

  /** An empty or all-blank query shows the whole list, in order. */
  lemma BlankQueryShowsAll(students: seq<Student>, query: string)
    requires AllSpace(query)
    ensures SearchStudents(students, query) == students
  {
    TrimEmptyIffAllSpace(query);
    FilterAll(students, StudentSearch(query));
  }

  /** The search ignores the case of the query: typing it in capitals
      shows the same students. */
  lemma SearchIgnoresQueryCase(students: seq<Student>, query: string)
    ensures SearchStudents(students, query) == SearchStudents(students, ToLower(query))
  {
    ToLowerIdempotent(query);
    ToLowerKeepsBlank(query);
    TrimEmptyIffAllSpace(query);
    TrimEmptyIffAllSpace(ToLower(query));
    FilterExt(students, StudentSearch(query), StudentSearch(ToLower(query)));
  }

  /** The phone is matched against the lower-cased query, which leaves a
      query of digits unchanged: a phone containing a digit query is found. */
  lemma DigitQueryFindsPhone(students: seq<Student>, query: string, s: Student)
    requires AllDigits(query) && s in students && s.phone.Some? && Contains(s.phone.value, query)
    ensures s in SearchStudents(students, query)
  {
    assert ToLower(query) == query by {
      assert forall i :: 0 <= i < |query| ==> LowerChar(query[i]) == query[i];
    }
  }

  /* ---------------------------------------------------------------- */
  /* The edit dialog                                                   */
  /* ---------------------------------------------------------------- */

  /** The three mobile inputs. */
  datatype MobileField = Phone | FatherMobile | MotherMobile

  /** Typing into a mobile input stores only the typed digits. */
  function TypeMobile(f: Student, field: MobileField, typed: string): (r: Student)
    ensures r.name == f.name && r.studentId == f.studentId && r.status == f.status
    ensures r.fatherName == f.fatherName && r.motherName == f.motherName
    ensures field == Phone ==> r.phone == Some(DigitsOnly(typed)) && r.fatherMobile == f.fatherMobile && r.motherMobile == f.motherMobile
    ensures field == FatherMobile ==> r.fatherMobile == Some(DigitsOnly(typed)) && r.phone == f.phone && r.motherMobile == f.motherMobile
    ensures field == MotherMobile ==> r.motherMobile == Some(DigitsOnly(typed)) && r.phone == f.phone && r.fatherMobile == f.fatherMobile
  {
    match field
    case Phone => f.(phone := Some(DigitsOnly(typed)))
    case FatherMobile => f.(fatherMobile := Some(DigitsOnly(typed)))
    case MotherMobile => f.(motherMobile := Some(DigitsOnly(typed)))
  }

  /** `value || null` on an optional text. */
  function BlankToNull(o: Option<string>): (r: Option<string>)
    ensures r.None? <==> o.None? || o.value == []
    ensures r.Some? ==> r == o
  {
    if o.Some? then OrNull(o.value) else None
  }

  /** `handleSaveEdit`'s row: the name as it stands (nothing checks it),
      empty optional texts as null and the status "active" when unset. */
  function UpdatePayload(f: Student): (r: Student)
    ensures r.id == f.id && r.name == f.name
    ensures r.phone == BlankToNull(f.phone) && r.studentId == BlankToNull(f.studentId)
    ensures r.fatherName == BlankToNull(f.fatherName) && r.fatherMobile == BlankToNull(f.fatherMobile)
    ensures r.motherName == BlankToNull(f.motherName) && r.motherMobile == BlankToNull(f.motherMobile)
    ensures r.status.Some?
    ensures f.status.Some? ==> r.status == f.status
    ensures f.status.None? ==> r.status == Some(StudentActive)
  {
    f.(phone := BlankToNull(f.phone), studentId := BlankToNull(f.studentId),
       fatherName := BlankToNull(f.fatherName), fatherMobile := BlankToNull(f.fatherMobile),
       motherName := BlankToNull(f.motherName), motherMobile := BlankToNull(f.motherMobile),
       status := Some(f.status.GetOr(StudentActive)))
  }

  predicate NoEmptyTexts(s: Student) {
    && s.phone != Some([]) && s.studentId != Some([])
    && s.fatherName != Some([]) && s.fatherMobile != Some([])
    && s.motherName != Some([]) && s.motherMobile != Some([])
  }

  /** Opening a student and saving without edits writes the student back
      unchanged, once its empty texts are null and its status is set. */
  lemma SaveUnchangedRoundTrip(s: Student)
    requires NoEmptyTexts(s) && s.status.Some?
    ensures UpdatePayload(s) == s
  {
  }

  /** Saving is idempotent: a saved row saves to itself. */
  lemma UpdatePayloadIdempotent(f: Student)
    ensures UpdatePayload(UpdatePayload(f)) == UpdatePayload(f)
  {
    SaveUnchangedRoundTrip(UpdatePayload(f));
  }

  predicate MobilesAreDigits(s: Student) {
    && (s.phone.Some? ==> AllDigits(s.phone.value))
    && (s.fatherMobile.Some? ==> AllDigits(s.fatherMobile.value))
    && (s.motherMobile.Some? ==> AllDigits(s.motherMobile.value))
  }

  /** Mobiles entered through the inputs are saved as digits only (or
      null when nothing was typed). */
  lemma TypedMobilesSaveAsDigits(f: Student, field: MobileField, typed: string)
    requires MobilesAreDigits(f)
    ensures MobilesAreDigits(UpdatePayload(TypeMobile(f, field, typed)))
  {
    DigitsOnlyFixed(typed);
  }

  /** The saved row replaces the student with the same id; every other
      student is kept. */
  function ApplyUpdate(students: seq<Student>, row: Student): (r: seq<Student>)
    ensures |r| == |students|
    ensures forall i :: 0 <= i < |students| ==>
              r[i] == (if students[i].id == row.id then row else students[i])
  {
    seq(|students|, i requires 0 <= i < |students| => if students[i].id == row.id then row else students[i])
  }

  /** A saved edit shows up in the list: after the update the edited
      student is found under its id with the saved fields. */
  lemma UpdateIsVisible(students: seq<Student>, f: Student)
    requires exists s :: s in students && s.id == f.id
    ensures UpdatePayload(f) in ApplyUpdate(students, UpdatePayload(f))
    ensures forall s :: s in ApplyUpdate(students, UpdatePayload(f)) && s.id == f.id ==> s == UpdatePayload(f)
  {
    var s :| s in students && s.id == f.id;
    var i :| 0 <= i < |students| && students[i] == s;
    assert ApplyUpdate(students, UpdatePayload(f))[i] == UpdatePayload(f);
  }

  /* ---------------------------------------------------------------- */
  /* The edit flow: row menu, Edit, Save                               */
  /* ---------------------------------------------------------------- */

  /** The page state the edit flow goes through: the loaded list, the row
      menu's `selectedStudent` and the dialog's `editFormData` (`None` for
      the empty object the page starts with). */
  datatype EditState = EditState(students: seq<Student>, selected: Option<Student>, form: Option<Student>)

  /** `handleMenuOpen`: the row's student becomes the selection. */
  function OpenMenu(st: EditState, s: Student): (r: EditState)
    ensures r.selected == Some(s) && r.students == st.students && r.form == st.form
  {
    st.(selected := Some(s))
  }

  /** `handleEdit` as written: the form is filled from the selection, and
      then `handleMenuClose` clears the selection. */
  function EditAsWritten(st: EditState): (r: EditState)
    ensures r.students == st.students && r.selected.None?
    ensures st.selected.Some? ==> r.form == st.selected
    ensures st.selected.None? ==> r.form == st.form
  {
    var filled := if st.selected.Some? then st.(form := st.selected) else st;
    filled.(selected := None)
  }

  /** `handleEdit` as evidently intended: the form is filled from the
      selection and the selection is kept for the save. */
  function Edit(st: EditState): (r: EditState)
    ensures r.students == st.students && r.selected == st.selected
    ensures st.selected.Some? ==> r.form == st.selected
    ensures st.selected.None? ==> r.form == st.form
  {
    if st.selected.Some? then st.(form := st.selected) else st
  }

  /** Typing into the dialog: the form holds the edited student. */
  function EnterForm(st: EditState, f: Student): (r: EditState)
    ensures r.form == Some(f) && r.students == st.students && r.selected == st.selected
  {
    st.(form := Some(f))
  }

  /** The Save button is disabled while the form's name is empty. */
  predicate SaveEnabled(st: EditState) {
    st.form.Some? && st.form.value.name != []
  }

  /** The row the update writes: the payload of the form, under the id of
      the selected student that `.eq("id", …)` targets. */
  function SavedRow(f: Student, id: Id): (r: Student)
    ensures r == UpdatePayload(f).(id := id)
  {
    UpdatePayload(f.(id := id))
  }

  /** Clicking Save, then the reload: nothing happens while the button is
      disabled or when `handleSaveEdit` returns early for want of a
      selection; otherwise the selected student's row is replaced by the
      form's payload. */
  function SaveEdit(st: EditState): (r: seq<Student>)
    ensures !SaveEnabled(st) || st.selected.None? ==> r == st.students
    ensures SaveEnabled(st) && st.selected.Some? ==>
              r == ApplyUpdate(st.students, SavedRow(st.form.value, st.selected.value.id))
  {
    if !SaveEnabled(st) || st.selected.None? then st.students
    else ApplyUpdate(st.students, SavedRow(st.form.value, st.selected.value.id))
  }

  /** As written, an edit is never saved: whichever student is opened and
      whatever is typed, clicking Save leaves the list as it was. */
  lemma EditAsWrittenNeverSaves(st: EditState, s: Student, f: Student)
    ensures SaveEdit(EnterForm(EditAsWritten(OpenMenu(st, s)), f)) == st.students
  {
  }

  /** With the selection kept, an edit with a name is saved: the edited
      student is found under its id with the saved fields, and no other
      row changes. */
  lemma EditSaves(st: EditState, s: Student, f: Student)
    requires f.name != [] && exists t :: t in st.students && t.id == s.id
    ensures var r := SaveEdit(EnterForm(Edit(OpenMenu(st, s)), f));
            && SavedRow(f, s.id) in r
            && (forall t :: t in r && t.id == s.id ==> t == SavedRow(f, s.id))
            && |r| == |st.students|
            && forall i :: 0 <= i < |r| && st.students[i].id != s.id ==> r[i] == st.students[i]
  {
    var g := f.(id := s.id);
    UpdateIsVisible(st.students, g);
  }

  /** A cleared name is never saved: the Save button stays disabled. A
      name of blanks is not empty, so it is saved as typed. */
  lemma ClearedNameNotSaved(st: EditState, s: Student, f: Student)
    ensures f.name == [] ==> SaveEdit(EnterForm(Edit(OpenMenu(st, s)), f)) == st.students
    ensures f.name == " " && (exists t :: t in st.students && t.id == s.id) ==>
              SavedRow(f, s.id) in SaveEdit(EnterForm(Edit(OpenMenu(st, s)), f))
              && SavedRow(f, s.id).name == " "
  {
    if f.name == " " && exists t :: t in st.students && t.id == s.id {
      EditSaves(st, s, f);
    }
  }
}
