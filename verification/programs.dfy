/** The programs page: the add/edit dialog, its upper-casing code input
    and the row a submit writes. */
module Programs {
  import opened Wrappers
  import opened Text
  import opened Domain
  import FeePlans

  /** The dialog's fields; the numeric inputs are unset until typed. */
  datatype ProgramForm = ProgramForm(
    name: string,
    code: string,
    description: string,
    duration: Option<int>,
    durationUnit: Option<DurationUnit>,
    feeAmount: Option<real>,
    status: Option<ProgramStatus>)

  /** Typing into the code input stores it upper-cased. */
  function TypeCode(f: ProgramForm, typed: string): (r: ProgramForm)
    ensures r.code == ToUpper(typed)
    ensures forall i :: 0 <= i < |r.code| ==> !IsLower(r.code[i])
    ensures r == f.(code := r.code)
  {
    f.(code := ToUpper(typed))
  }

  /** Re-typing the shown code through the input leaves it unchanged. */
  lemma RetypeCodeUnchanged(f: ProgramForm, typed: string)
    ensures TypeCode(TypeCode(f, typed), TypeCode(f, typed).code) == TypeCode(f, typed)
  {
    ToUpperIdempotent(typed);
  }

  /** Opening an existing program: its fields, with a missing description
      shown empty and a missing unit shown as "years". */
  function OpenDialog(p: Program): (r: ProgramForm)
    ensures r.name == p.name && r.code == p.code && r.duration == p.duration
    ensures r.feeAmount == p.feeAmount && r.status == p.status
    ensures r.description == p.description.GetOr("")
    ensures r.durationUnit == Some(p.durationUnit.GetOr(Years))
  {
    ProgramForm(p.name, p.code, p.description.GetOr(""), p.duration,
                Some(p.durationUnit.GetOr(Years)), p.feeAmount, p.status)
  }

  /** The written columns (the tenant and the timestamp aside). */
  datatype ProgramRow = ProgramRow(
    name: string,
    code: string,
    description: Option<string>,
    duration: Option<int>,
    durationUnit: Option<DurationUnit>,
    feeAmount: Option<real>,
    status: ProgramStatus)

  datatype ProgramError = MissingNameOrCode

  /** `handleSubmit`, for an insert and an update alike: name and code must
      be non-empty (they are not trimmed); falsy optional fields are written
      as null and an unset status as "active". */
  function SubmitProgram(f: ProgramForm): (r: Result<ProgramRow, ProgramError>)
    ensures r.Err? <==> f.name == [] || f.code == []
    ensures r.Ok? ==>
              && r.value.name == f.name && r.value.code == f.code
              && r.value.description == OrNull(f.description)
              && r.value.duration == NumberOrNull(f.duration)
              && r.value.durationUnit == f.durationUnit
              && r.value.feeAmount == AmountOrNull(f.feeAmount)
              && (f.status.Some? ==> r.value.status == f.status.value)
              && (f.status.None? ==> r.value.status == ProgramActive)
  {
    if f.name == [] || f.code == [] then Err(MissingNameOrCode)
    else Ok(ProgramRow(f.name, f.code, OrNull(f.description), NumberOrNull(f.duration),
                       f.durationUnit, AmountOrNull(f.feeAmount), f.status.GetOr(ProgramActive)))
  }

  /** The program a written row becomes under its id. */
  function AsProgram(row: ProgramRow, id: Id): (r: Program)
    ensures r.id == id && r.name == row.name && r.code == row.code && r.status == Some(row.status)
  {
    Program(id, row.code, row.name, row.description, row.duration, row.durationUnit, row.feeAmount, Some(row.status))
  }

  /** A program stored in the form the dialog writes. */
  predicate Normalised(p: Program) {
    && p.name != [] && p.code != []
    && p.description != Some([]) && p.duration != Some(0)
    && p.durationUnit.Some? && p.feeAmount != Some(0.0) && p.status.Some?
  }

  /** Opening a program and submitting without edits writes it back
      unchanged. */
  lemma EditRoundTrip(p: Program)
    requires Normalised(p)
    ensures SubmitProgram(OpenDialog(p)).Ok?
    ensures AsProgram(SubmitProgram(OpenDialog(p)).value, p.id) == p
  {
  }

  /** Every row a submit writes is normalised, so the round trip applies
      from the second edit on. */
  lemma SubmittedIsNormalised(f: ProgramForm, id: Id)
    requires SubmitProgram(f).Ok? && f.durationUnit.Some?
    ensures Normalised(AsProgram(SubmitProgram(f).value, id))
  {
  }

  /** A name of blanks counts as present. */
  lemma BlankNameAccepted(f: ProgramForm)
    requires f.name == " " && f.code != []
    ensures SubmitProgram(f).Ok? && SubmitProgram(f).value.name == " "
  {
  }

  /** A fee of 0 is written as no fee, and a program without a fee cannot
      back a fee plan: choosing it on the fee-plan form blocks the save. */
  lemma ZeroFeeBlocksPlans(f: ProgramForm, id: Id, s: Student, plan: FeePlans.PlanForm)
    requires SubmitProgram(f).Ok? && f.feeAmount == Some(0.0)
    ensures var p := AsProgram(SubmitProgram(f).value, id);
            && p.feeAmount.None?
            && FeePlans.SavePlan(Some(s), Some(p), FeePlans.SelectProgram(plan, Some(p))) == Err(FeePlans.MissingProgramFee)
  {
    FeePlans.SaveNeedsProgramFee(s, AsProgram(SubmitProgram(f).value, id), plan);
  }
}
