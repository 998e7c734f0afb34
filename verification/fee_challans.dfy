/** The fee-challans page: challan numbers, bulk generation from the
    selected fee plans, the plan selection checkboxes, the eligible-plan
    filter, editing a challan and the guarded challan delete. */
module FeeChallans {
  import opened Wrappers
  import opened Seqs
  import opened Text
  import opened Domain
  import opened FeeCollection

  // ---------------------------------------------------------------------
  // Challan numbers

  /** `CH-{year}{month, 2 digits}-{suffix, 4 digits}`; the year and month
      are today's, the suffix is `Math.floor(Math.random() * 10000)`. */
  function ChallanNumber(year: nat, month: nat, suffix: nat): (r: string)
    requires 1 <= month <= 12 && suffix < 10000
    ensures IsPrefix("CH-", r)
    ensures |r| == 3 + |NatToString(year)| + 2 + 1 + 4
    ensures r[|r| - 5] == '-'
    ensures AllDigits(r[3..|r| - 5]) && AllDigits(r[|r| - 4..])
  {
    NatToStringLength(month, 2, 100);
    NatToStringLength(suffix, 4, 10000);
    var ym := NatToString(year) + PadZero(NatToString(month), 2);
    var r := "CH-" + ym + "-" + PadZero(NatToString(suffix), 4);
    assert r[3..|r| - 5] == ym;
    assert r[|r| - 4..] == PadZero(NatToString(suffix), 4);
    assert AllDigits(ym) by {
      var y := NatToString(year);
      forall i | 0 <= i < |ym| ensures IsDigit(ym[i]) {
        if i >= |y| { assert ym[i] == PadZero(NatToString(month), 2)[i - |y|]; }
      }
    }
    r
  }

  /** Reads a challan number back into its year, month and suffix. */
  function ParseChallanNumber(s: string): Option<(nat, nat, nat)> {
    if |s| >= 11 && s[..3] == "CH-" && s[|s| - 5] == '-'
       && AllDigits(s[3..|s| - 7]) && AllDigits(s[|s| - 7..|s| - 5]) && AllDigits(s[|s| - 4..])
    then Some((ParseDigits(s[3..|s| - 7]), ParseDigits(s[|s| - 7..|s| - 5]), ParseDigits(s[|s| - 4..])))
    else None
  }

  /** The layout of a challan number, whatever its pieces. */
  lemma ChallanNumberLayout(y: string, m: string, n: string)
    requires |m| == 2 && |n| == 4
    ensures var s := "CH-" + y + m + "-" + n;
            && |s| == |y| + 10 && s[..3] == "CH-" && s[|s| - 5] == '-'
            && s[3..|s| - 7] == y && s[|s| - 7..|s| - 5] == m && s[|s| - 4..] == n
  {
    var s := "CH-" + y + m + "-" + n;
    assert s == "CH-" + (y + (m + ("-" + n)));
  }

  /** A challan number carries its year, month and suffix recoverably. */
  lemma ChallanNumberRoundTrip(year: nat, month: nat, suffix: nat)
    requires 1 <= month <= 12 && suffix < 10000
    ensures ParseChallanNumber(ChallanNumber(year, month, suffix)) == Some((year, month, suffix))
  {
    var y := NatToString(year);
    NatToStringLength(month, 2, 100);
    NatToStringLength(suffix, 4, 10000);
    var m := PadZero(NatToString(month), 2);
    var n := PadZero(NatToString(suffix), 4);
    PadZeroRoundTrip(month, 2);
    PadZeroRoundTrip(suffix, 4);
    ParseNatToString(year);
    ChallanNumberLayout(y, m, n);
    assert ChallanNumber(year, month, suffix) == "CH-" + y + m + "-" + n;
  }

  /** Two numbers of the same month collide only when their random
      suffixes do. */
  lemma ChallanNumberInjective(year: nat, month: nat, a: nat, b: nat)
    requires 1 <= month <= 12 && a < 10000 && b < 10000
    requires ChallanNumber(year, month, a) == ChallanNumber(year, month, b)
    ensures a == b
  {
    ChallanNumberRoundTrip(year, month, a);
    ChallanNumberRoundTrip(year, month, b);
  }

  // ---------------------------------------------------------------------
  // The plans that can be billed, and their selection

  /** A plan is listed only when its student and its program are active. */
  function EligibleIn(activeStudents: set<Id>, activePrograms: set<Id>): FeePlan -> bool {
    (p: FeePlan) => p.studentId in activeStudents && p.programId in activePrograms
  }

  function EligiblePlans(plans: seq<FeePlan>, activeStudents: set<Id>, activePrograms: set<Id>)
    : (r: seq<FeePlan>)
    ensures forall p :: p in r <==> p in plans && p.studentId in activeStudents && p.programId in activePrograms
    ensures IsSubsequence(r, plans)
  {
    FilterIsSubsequence(plans, EligibleIn(activeStudents, activePrograms));
    Filter(plans, EligibleIn(activeStudents, activePrograms))
  }

  function PlanIds(plans: seq<FeePlan>): (r: set<Id>)
    ensures forall x :: x in r <==> exists p :: p in plans && p.id == x
    decreases |plans|
  {
    if |plans| == 0 then {}
    else
      var rest := PlanIds(plans[1..]);
      assert forall p :: p in plans ==> p == plans[0] || p in plans[1..];
      {plans[0].id} + rest
  }

  predicate DistinctPlanIds(plans: seq<FeePlan>) {
    forall i, j :: 0 <= i < j < |plans| ==> plans[i].id != plans[j].id
  }

  lemma {:induction false} PlanIdsSize(plans: seq<FeePlan>)
    requires DistinctPlanIds(plans)
    ensures |PlanIds(plans)| == |plans|
    decreases |plans|
  {
    if |plans| > 0 {
      var rest := plans[1..];
      assert DistinctPlanIds(rest) by {
        forall i, j | 0 <= i < j < |rest| ensures rest[i].id != rest[j].id {
          assert rest[i] == plans[i + 1] && rest[j] == plans[j + 1];
        }
      }
      PlanIdsSize(rest);
      assert plans[0].id !in PlanIds(rest) by {
        forall i | 0 <= i < |rest| ensures rest[i].id != plans[0].id {
          assert rest[i] == plans[i + 1];
        }
      }
      assert PlanIds(plans) == {plans[0].id} + PlanIds(rest);
    }
  }

  lemma ProperSubsetSmaller<T>(a: set<T>, b: set<T>)
    requires a < b
    ensures |a| < |b|
  {
    assert !(b <= a);
    var x :| x in b && x !in a;
    assert b == a + (b - a);
    assert x in b - a;
  }

  /** `handleSelectFeePlan`: flips the membership of one plan. */
  function TogglePlan(selected: set<Id>, planId: Id): (r: set<Id>)
    ensures planId in r <==> planId !in selected
    ensures forall x :: x != planId ==> (x in r <==> x in selected)
  {
    if planId in selected then selected - {planId} else selected + {planId}
  }

  /** `handleSelectAll`: compares the selection's size with the list's. */
  function SelectAllPlans(selected: set<Id>, plans: seq<FeePlan>): set<Id> {
    if |selected| == |plans| then {} else PlanIds(plans)
  }

  /** On a list with distinct ids, select-all clears a full selection and
      otherwise selects every plan. */
  lemma SelectAllPlansToggles(selected: set<Id>, plans: seq<FeePlan>)
    requires DistinctPlanIds(plans)
    requires selected <= PlanIds(plans)
    ensures selected == PlanIds(plans) ==> SelectAllPlans(selected, plans) == {}
    ensures selected != PlanIds(plans) ==> SelectAllPlans(selected, plans) == PlanIds(plans)
  {
    PlanIdsSize(plans);
    if selected != PlanIds(plans) {
      ProperSubsetSmaller(selected, PlanIds(plans));
    }
  }

  // ---------------------------------------------------------------------
  // Bulk generation

  /** The shared fields of the generation form. */
  datatype ChallanForm = ChallanForm(issueDate: string, dueDate: string, notes: string)

  /** A challan row as inserted (the database assigns its id). */
  datatype NewChallan = NewChallan(
    feePlanId: Id,
    studentId: Id,
    programId: Id,
    number: string,
    issueDate: string,
    dueDate: string,
    amount: real,
    status: ChallanStatus,
    notes: Option<string>)

  function InSelection(selected: set<Id>): FeePlan -> bool {
    (p: FeePlan) => p.id in selected
  }

  /** The challan generated for one plan: billed at the plan's fee after
      discount, pending, with the form's shared dates and notes. */
  predicate BillsPlan(c: NewChallan, p: FeePlan, form: ChallanForm) {
    && c.feePlanId == p.id && c.studentId == p.studentId && c.programId == p.programId
    && c.amount == p.feeAfterDiscount && c.status == Pending
    && c.issueDate == form.issueDate && c.dueDate == form.dueDate && c.notes == OrNull(form.notes)
  }

  /** The random draws of the selected plans, in list order. */
  function SelectedSuffixes(plans: seq<FeePlan>, suffixes: seq<nat>, selected: set<Id>): (r: seq<nat>)
    requires |suffixes| == |plans| && forall i :: 0 <= i < |suffixes| ==> suffixes[i] < 10000
    ensures |r| == |Filter(plans, InSelection(selected))|
    ensures forall i :: 0 <= i < |r| ==> r[i] < 10000
    decreases |plans|
  {
    if |plans| == 0 then []
    else
      FilterHead(plans, InSelection(selected));
      (if plans[0].id in selected then [suffixes[0]] else []) + SelectedSuffixes(plans[1..], suffixes[1..], selected)
  }

  function ChallansFor(plans: seq<FeePlan>, suffixes: seq<nat>, selected: set<Id>, form: ChallanForm,
                       year: nat, month: nat): (r: seq<NewChallan>)
    requires 1 <= month <= 12
    requires |suffixes| == |plans| && forall i :: 0 <= i < |suffixes| ==> suffixes[i] < 10000
    ensures |r| == |Filter(plans, InSelection(selected))|
    ensures forall i :: 0 <= i < |r| ==> BillsPlan(r[i], Filter(plans, InSelection(selected))[i], form)
    ensures forall i :: 0 <= i < |r| ==>
              r[i].number == ChallanNumber(year, month, SelectedSuffixes(plans, suffixes, selected)[i])
    decreases |plans|
  {
    if |plans| == 0 then []
    else
      var rest := ChallansFor(plans[1..], suffixes[1..], selected, form, year, month);
      var p := plans[0];
      if p.id in selected then
        [NewChallan(p.id, p.studentId, p.programId, ChallanNumber(year, month, suffixes[0]),
                    form.issueDate, form.dueDate, p.feeAfterDiscount, Pending, OrNull(form.notes))] + rest
      else rest
  }

  /** `handleGenerateBulkChallans`: refuses an empty selection; otherwise
      one challan per selected plan, in list order. `suffixes[i]` is the
      random draw made for `plans[i]`. */
  function GenerateChallans(plans: seq<FeePlan>, selected: set<Id>, form: ChallanForm,
                            year: nat, month: nat, suffixes: seq<nat>)
    : (r: Result<seq<NewChallan>, FeeError>)
    requires 1 <= month <= 12
    requires |suffixes| == |plans| && forall i :: 0 <= i < |suffixes| ==> suffixes[i] < 10000
    ensures r.Err? <==> selected == {}
    ensures r.Err? ==> r.error == NoPlanSelected
    ensures r.Ok? ==>
              var chosen := Filter(plans, InSelection(selected));
              && |r.value| == |chosen|
              && (forall i :: 0 <= i < |r.value| ==> BillsPlan(r.value[i], chosen[i], form))
              && forall i :: 0 <= i < |r.value| ==>
                   r.value[i].number == ChallanNumber(year, month, SelectedSuffixes(plans, suffixes, selected)[i])
  {
    if |selected| == 0 then Err(NoPlanSelected)
    else Ok(ChallansFor(plans, suffixes, selected, form, year, month))
  }

  /** Every generated challan's number reads back as this month's number
      with its own plan's draw, and two generated challans share a number
      only when their plans drew the same suffix. */
  lemma GeneratedNumbersReadBack(plans: seq<FeePlan>, selected: set<Id>, form: ChallanForm,
                                 year: nat, month: nat, suffixes: seq<nat>)
    requires 1 <= month <= 12
    requires |suffixes| == |plans| && forall i :: 0 <= i < |suffixes| ==> suffixes[i] < 10000
    requires GenerateChallans(plans, selected, form, year, month, suffixes).Ok?
    ensures var cs := GenerateChallans(plans, selected, form, year, month, suffixes).value;
            var drawn := SelectedSuffixes(plans, suffixes, selected);
            && (forall i :: 0 <= i < |cs| ==> ParseChallanNumber(cs[i].number) == Some((year, month, drawn[i])))
            && forall i, j :: 0 <= i < |cs| && 0 <= j < |cs| && cs[i].number == cs[j].number ==> drawn[i] == drawn[j]
  {
    var cs := GenerateChallans(plans, selected, form, year, month, suffixes).value;
    var drawn := SelectedSuffixes(plans, suffixes, selected);
    forall i | 0 <= i < |cs| ensures ParseChallanNumber(cs[i].number) == Some((year, month, drawn[i])) {
      ChallanNumberRoundTrip(year, month, drawn[i]);
    }
  }

  /** A generated challan stored under a fresh id. */
  function StoreChallan(c: NewChallan, id: Id): Challan {
    Challan(id, c.feePlanId, c.studentId, c.programId, c.number, c.issueDate, c.dueDate,
            c.amount, None, c.status, None, None, None, c.notes)
  }

  /** A challan under an id no payment refers to has been paid nothing. */
  lemma FreshChallanUnpaid(l: Ledger, id: Id)
    requires Consistent(l)
    requires forall d :: d in l.challans ==> d.id != id
    ensures PaidFor(l.payments, id) == 0.0
  {
    forall i | 0 <= i < |l.payments| ensures !ForChallan(id)(l.payments[i]) {
      assert l.payments[i] in l.payments;
    }
    FilterNone(l.payments, ForChallan(id));
    PaidForIsFilterSum(l.payments, id);
  }

  /** Adding a generated challan of positive amount under a fresh id keeps
      the ledger consistent: it is unpaid, has no payments, and "pending" is
      the status the derivation rule gives it. */
  lemma AddGeneratedPreservesConsistency(l: Ledger, c: NewChallan, p: FeePlan, form: ChallanForm, id: Id)
    requires Consistent(l)
    requires BillsPlan(c, p, form) && p.feeAfterDiscount > 0.0
    requires forall d :: d in l.challans ==> d.id != id
    ensures Consistent(Ledger(l.challans + [StoreChallan(c, id)], l.payments))
  {
    var d := StoreChallan(c, id);
    var cs' := l.challans + [d];
    FreshChallanUnpaid(l, id);
    assert Settled(d, l.payments);
    forall q | q in l.payments ensures HasChallan(cs', q.challanId) {
      var e :| e in l.challans && e.id == q.challanId;
      assert e in cs';
    }
    forall e | e in cs' ensures Settled(e, l.payments) {
      if e != d { assert e in l.challans; }
    }
    assert ChallanIdsAreKeys(cs');
  }

  // ---------------------------------------------------------------------
  // Editing and deleting a challan

  /** The edit dialog's fields. */
  datatype ChallanEdit = ChallanEdit(issueDate: string, dueDate: string, amount: real, notes: string)

  function ApplyEdit(cs: seq<Challan>, cid: Id, edit: ChallanEdit): (r: seq<Challan>)
    ensures |r| == |cs|
  {
    seq(|cs|, i requires 0 <= i < |cs| =>
      if cs[i].id == cid then
        cs[i].(issueDate := edit.issueDate, dueDate := edit.dueDate, amount := edit.amount,
               notes := OrNull(edit.notes))
      else cs[i])
  }

  /** `handleUpdateChallan`: refuses a non-positive amount; otherwise
      overwrites the issue date, due date, amount and notes of the challan
      and nothing else. The paid amount and the status are not revisited. */
  function UpdateChallan(cs: seq<Challan>, selected: Option<Challan>, edit: ChallanEdit)
    : (r: Result<seq<Challan>, FeeError>)
    ensures selected.None? ==> r == Err(NoChallanSelected)
    ensures selected.Some? && edit.amount <= 0.0 ==> r == Err(NonPositiveAmount)
    ensures r.Ok? <==> selected.Some? && edit.amount > 0.0
    ensures r.Ok? ==>
              && |r.value| == |cs|
              && forall i :: 0 <= i < |cs| ==>
                   var before, after := cs[i], r.value[i];
                   if before.id == selected.value.id then
                     && after.issueDate == edit.issueDate && after.dueDate == edit.dueDate
                     && after.amount == edit.amount && after.notes == OrNull(edit.notes)
                     && after.paidAmount == before.paidAmount && after.status == before.status
                     && after == before.(issueDate := after.issueDate, dueDate := after.dueDate,
                                         amount := after.amount, notes := after.notes)
                   else after == before
  {
    match selected
    case None => Err(NoChallanSelected)
    case Some(c) =>
      if edit.amount <= 0.0 then Err(NonPositiveAmount)
      else Ok(ApplyEdit(cs, c.id, edit))
  }

  /** The gap in `handleUpdateChallan`: lowering the amount below what was
      already paid is accepted, and leaves a challan whose paid amount
      exceeds its amount. */
  lemma UpdateCanPushPaidAboveAmount(cs: seq<Challan>, c: Challan, edit: ChallanEdit)
    requires c in cs
    requires 0.0 < edit.amount < PaidOf(c)
    ensures UpdateChallan(cs, Some(c), edit).Ok?
    ensures exists d :: d in UpdateChallan(cs, Some(c), edit).value && d.id == c.id && PaidOf(d) > d.amount
  {
    var r := UpdateChallan(cs, Some(c), edit).value;
    var i :| 0 <= i < |cs| && cs[i] == c;
    assert r[i] in r;
  }

  /** The other side of the same gap: raising the amount of a fully paid
      challan keeps the status "paid", so the challan drops out of both the
      pending list and the payment history. */
  lemma UpdateCanHidePaidChallan(cs: seq<Challan>, c: Challan, edit: ChallanEdit)
    requires c in cs && c.status == Paid
    requires edit.amount > PaidOf(c) && edit.amount > 0.0
    ensures exists d :: d in UpdateChallan(cs, Some(c), edit).value && d.id == c.id
                        && d !in PendingChallans(UpdateChallan(cs, Some(c), edit).value)
                        && d !in PaidChallans(UpdateChallan(cs, Some(c), edit).value)
  {
    var r := UpdateChallan(cs, Some(c), edit).value;
    var i :| 0 <= i < |cs| && cs[i] == c;
    assert r[i] in r;
  }

  function ChallanPayments(ps: seq<Payment>, cid: Id): seq<Payment> {
    Filter(ps, ForChallan(cid))
  }

  /** Whether the delete button of a challan is enabled. */
  predicate CanDeleteChallan(ps: seq<Payment>, c: Challan) {
    |ChallanPayments(ps, c.id)| == 0
  }

  function NotChallan(cid: Id): Challan -> bool {
    (c: Challan) => c.id != cid
  }

  /** `handleDeleteChallan`: refuses while the challan has payments;
      otherwise removes it. */
  function DeleteChallan(l: Ledger, toDelete: Option<Challan>): (r: Result<Ledger, FeeError>)
    ensures r.Ok? <==> toDelete.Some? && CanDeleteChallan(l.payments, toDelete.value)
    ensures toDelete.Some? && (exists p :: p in l.payments && p.challanId == toDelete.value.id)
            ==> r == Err(ChallanHasPayments)
    ensures r.Ok? ==> r.value.payments == l.payments
    ensures r.Ok? ==> forall d :: d in r.value.challans <==> d in l.challans && d.id != toDelete.value.id
  {
    match toDelete
    case None => Err(NoChallanSelected)
    case Some(c) =>
      if exists p :: p in l.payments && p.challanId == c.id then
        var p :| p in l.payments && p.challanId == c.id;
        assert p in ChallanPayments(l.payments, c.id);
        Err(ChallanHasPayments)
      else
        FilterNone(l.payments, ForChallan(c.id));
        Ok(Ledger(Filter(l.challans, NotChallan(c.id)), l.payments))
  }

  /** Removing a challan that has no payments keeps the ledger consistent. */
  lemma DeleteChallanPreservesConsistency(l: Ledger, c: Challan)
    requires Consistent(l)
    requires DeleteChallan(l, Some(c)).Ok?
    ensures Consistent(DeleteChallan(l, Some(c)).value)
  {
    var l' := DeleteChallan(l, Some(c)).value;
    forall q | q in l.payments ensures HasChallan(l'.challans, q.challanId) {
      var e :| e in l.challans && e.id == q.challanId;
      assert q in ChallanPayments(l.payments, q.challanId);
      assert e.id != c.id;
    }
  }
}
