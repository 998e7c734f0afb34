/** The fee-plan form: the discount calculator that keeps the discount
    amount, the discount percent and the fee after discount in step, the
    effect of choosing a program, and the checks made before a plan is
    saved. */
module FeePlans {
  import opened Wrappers
  import opened Text
  import opened Numbers
  import opened Domain

  /** The dialog's fields (the student and program are chosen separately). */
  datatype PlanForm = PlanForm(
    effectiveFrom: string,
    actualFee: real,
    discountAmount: real,
    discountPercent: real,
    feeAfterDiscount: real,
    discountType: string,
    discountReason: string,
    notes: string)

  /** Which of the three linked inputs was edited. */
  datatype DiscountField = AmountField | PercentField | FeeAfterField

  /** `discountAmount / actualFee * 100`, or 0 when there is no fee. */
  function PercentOf(amount: real, actualFee: real): real {
    if actualFee > 0.0 then amount / actualFee * 100.0 else 0.0
  }

  /** `handleDiscountChange`: the edited field takes the typed value, the
      other two are derived from it; then the amount and the fee after
      discount are clamped at 0 and the percent is rounded to hundredths
      (but not clamped). The actual fee and the text fields are kept. */
  function ChangeDiscount(f: PlanForm, field: DiscountField, value: real): (r: PlanForm)
    ensures r.actualFee == f.actualFee && r.effectiveFrom == f.effectiveFrom
    ensures r.discountType == f.discountType && r.discountReason == f.discountReason && r.notes == f.notes
    ensures r.discountAmount >= 0.0 && r.feeAfterDiscount >= 0.0
    ensures field == PercentField ==>
              && r.discountPercent == Round2(value)
              && r.discountAmount == Max0(PercentOfAmount(f.actualFee, value))
              && r.feeAfterDiscount == Max0(f.actualFee - PercentOfAmount(f.actualFee, value))
    ensures field == AmountField ==>
              && r.discountAmount == Max0(value)
              && r.feeAfterDiscount == Max0(f.actualFee - value)
              && r.discountPercent == Round2(PercentOf(value, f.actualFee))
    ensures field == FeeAfterField ==>
              && r.feeAfterDiscount == Max0(value)
              && r.discountAmount == Max0(f.actualFee - value)
              && r.discountPercent == Round2(PercentOf(f.actualFee - value, f.actualFee))
  {
    var actual := f.actualFee;
    var (amount, percent, feeAfter) :=
      match field
      case AmountField => (value, PercentOf(value, actual), actual - value)
      case PercentField => (PercentOfAmount(actual, value), value, actual - PercentOfAmount(actual, value))
      case FeeAfterField => (actual - value, PercentOf(actual - value, actual), value);
    f.(discountAmount := Max0(amount), discountPercent := Round2(percent), feeAfterDiscount := Max0(feeAfter))
  }

  /** Whichever field is edited, a discount within the fee splits the fee
      exactly into discount and remainder. */
  lemma DiscountSplitsFee(f: PlanForm, field: DiscountField, value: real)
    requires f.actualFee >= 0.0
    requires field == AmountField ==> 0.0 <= value <= f.actualFee
    requires field == PercentField ==> 0.0 <= value <= 100.0
    requires field == FeeAfterField ==> 0.0 <= value <= f.actualFee
    ensures var r := ChangeDiscount(f, field, value);
            r.discountAmount + r.feeAfterDiscount == f.actualFee
  {
    if field == PercentField {
      PercentageWithin(f.actualFee, value);
    }
  }

  /** Whichever field is edited, a discount within the fee keeps the three
      fields in step: the percent lies in 0..100 and within half a
      hundredth of the share the discount amount is of the fee. */
  lemma DiscountPercentInRange(f: PlanForm, field: DiscountField, value: real)
    requires f.actualFee > 0.0
    requires field == AmountField ==> 0.0 <= value <= f.actualFee
    requires field == PercentField ==> 0.0 <= value <= 100.0
    requires field == FeeAfterField ==> 0.0 <= value <= f.actualFee
    ensures var r := ChangeDiscount(f, field, value);
            && 0.0 <= r.discountPercent <= 100.0
            && r.discountPercent - 0.005 <= r.discountAmount / f.actualFee * 100.0 < r.discountPercent + 0.005
  {
    var r := ChangeDiscount(f, field, value);
    if field == PercentField {
      PercentShareIsPercent(f.actualFee, value);
      Round2Bounds(value, 0, 100);
    } else {
      var amount := if field == AmountField then value else f.actualFee - value;
      assert r.discountAmount == amount;
      ShareInUnit(amount, f.actualFee);
      Round2Bounds(amount / f.actualFee * 100.0, 0, 100);
    }
  }

  /** `p` percent of a positive fee is a discount of exactly `p` percent. */
  lemma PercentShareIsPercent(fee: real, p: real)
    requires fee > 0.0 && 0.0 <= p <= 100.0
    ensures Max0(PercentOfAmount(fee, p)) == PercentOfAmount(fee, p)
    ensures PercentOfAmount(fee, p) / fee * 100.0 == p
  {
    PercentageWithin(fee, p);
    var a := PercentOfAmount(fee, p);
    assert a * 100.0 == fee * p;
    assert a / fee * fee == a;
  }

  /** The percent is not clamped: a discount above the fee is stored with
      the fee after discount at 0 but a percent of at least 100 that keeps
      growing with the discount, so the three fields no longer agree. */
  lemma OverDiscountKeepsPercent(f: PlanForm, value: real)
    requires 0.0 < f.actualFee < value
    ensures var r := ChangeDiscount(f, AmountField, value);
            && r.feeAfterDiscount == 0.0
            && r.discountPercent >= 100.0
            && (value >= 2.0 * f.actualFee ==> r.discountPercent >= 200.0)
            && r.discountAmount + r.feeAfterDiscount > f.actualFee
  {
    var x := value / f.actualFee * 100.0;
    assert value / f.actualFee * f.actualFee == value;
    RoundOfInt(10000);
    RoundMonotone(100.0 * 100.0, x * 100.0);
    if value >= 2.0 * f.actualFee {
      RoundOfInt(20000);
      RoundMonotone(200.0 * 100.0, x * 100.0);
    }
  }

  /** A ten percent discount on 5000 is 500, leaving 4500. */
  lemma TenPercentOfFiveThousand(f: PlanForm)
    requires f.actualFee == 5000.0
    ensures var r := ChangeDiscount(f, PercentField, 10.0);
            r.discountAmount == 500.0 && r.feeAfterDiscount == 4500.0 && r.discountPercent == 10.0
  {
    RoundOfInt(1000);
  }

  /** The effect run when a program is chosen: a program with a fee makes
      that fee the actual fee and re-derives the fee after discount and the
      percent from the discount amount already entered; a program without a
      fee (none, or 0) zeroes all four amounts; no program changes nothing. */
  function SelectProgram(f: PlanForm, program: Option<Program>): (r: PlanForm)
    ensures r.effectiveFrom == f.effectiveFrom && r.notes == f.notes
    ensures r.discountType == f.discountType && r.discountReason == f.discountReason
    ensures program.None? ==> r == f
    ensures program.Some? && program.value.feeAmount.GetOr(0.0) != 0.0 ==>
              && r.actualFee == program.value.feeAmount.value
              && r.discountAmount == f.discountAmount
              && r.feeAfterDiscount == Max0(r.actualFee - f.discountAmount)
    ensures program.Some? && program.value.feeAmount.GetOr(0.0) == 0.0 ==>
              r.actualFee == 0.0 && r.discountAmount == 0.0 && r.discountPercent == 0.0 && r.feeAfterDiscount == 0.0
  {
    match program
    case None => f
    case Some(p) =>
      var fee := p.feeAmount.GetOr(0.0);
      if fee != 0.0 then
        f.(actualFee := fee, feeAfterDiscount := Max0(fee - f.discountAmount),
           discountPercent := Round2(PercentOf(f.discountAmount, fee)))
      else
        f.(actualFee := 0.0, feeAfterDiscount := 0.0, discountAmount := 0.0, discountPercent := 0.0)
  }

  /** Choosing a program re-derives the dependent fields exactly as
      editing the discount amount again would. */
  lemma SelectProgramRederives(f: PlanForm, p: Program)
    requires p.feeAmount.GetOr(0.0) != 0.0 && f.discountAmount >= 0.0
    ensures SelectProgram(f, Some(p)) == ChangeDiscount(f.(actualFee := p.feeAmount.value), AmountField, f.discountAmount)
  {
  }

  datatype PlanError = MissingStudentOrProgram | MissingProgramFee

  /** The row a save writes. */
  datatype PlanRecord = PlanRecord(
    studentId: Id,
    programId: Id,
    actualFee: real,
    discountAmount: real,
    discountPercent: real,
    feeAfterDiscount: real,
    effectiveFrom: string,
    discountType: Option<string>,
    discountReason: Option<string>,
    notes: Option<string>)

  /** `handleSave`: both a student and a program must be chosen and the
      actual fee must be positive; the form's figures are saved as they
      stand and empty texts become null. */
  function SavePlan(student: Option<Student>, program: Option<Program>, f: PlanForm)
    : (r: Result<PlanRecord, PlanError>)
    ensures (student.None? || program.None?) ==> r == Err(MissingStudentOrProgram)
    ensures student.Some? && program.Some? && f.actualFee <= 0.0 ==> r == Err(MissingProgramFee)
    ensures r.Ok? <==> student.Some? && program.Some? && f.actualFee > 0.0
    ensures r.Ok? ==>
              && r.value.studentId == student.value.id && r.value.programId == program.value.id
              && r.value.actualFee == f.actualFee && r.value.discountAmount == f.discountAmount
              && r.value.discountPercent == f.discountPercent && r.value.feeAfterDiscount == f.feeAfterDiscount
              && r.value.effectiveFrom == f.effectiveFrom
              && r.value.discountType == OrNull(f.discountType)
              && r.value.discountReason == OrNull(f.discountReason)
              && r.value.notes == OrNull(f.notes)
  {
    if student.None? || program.None? then Err(MissingStudentOrProgram)
    else if f.actualFee <= 0.0 then Err(MissingProgramFee)
    else Ok(PlanRecord(student.value.id, program.value.id, f.actualFee, f.discountAmount,
                       f.discountPercent, f.feeAfterDiscount, f.effectiveFrom,
                       OrNull(f.discountType), OrNull(f.discountReason), OrNull(f.notes)))
  }

  /** Choosing a program with a positive fee is what lets a plan be saved;
      choosing one without a fee always blocks the save. */
  lemma SaveNeedsProgramFee(s: Student, p: Program, f: PlanForm)
    ensures p.feeAmount.GetOr(0.0) > 0.0 ==> SavePlan(Some(s), Some(p), SelectProgram(f, Some(p))).Ok?
    ensures p.feeAmount.GetOr(0.0) <= 0.0 ==> SavePlan(Some(s), Some(p), SelectProgram(f, Some(p))) == Err(MissingProgramFee)
  {
  }
}
