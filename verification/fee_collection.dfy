/** The fee ledger behind the fee-collection page: recording a payment
    against a challan, deleting a payment, the status derivation both use,
    the payment dialog's default and capped amount, and the pending/paid
    lists with their totals. Each handler's database update is modelled as
    the state change it effects on the loaded challans and payments. */
module FeeCollection {
  import opened Wrappers
  import opened Seqs
  import opened Text
  import opened Domain

  /** The caller-facing refusals of the fee pages. */
  datatype FeeError =
    | NoChallanSelected
    | NoPaymentSelected
    | NoPlanSelected
    | NonPositiveAmount
    | ExceedsBalance(maximum: real)
    | ChallanHasPayments

  /** `challan.paid_amount || 0`: a challan that was never paid reads 0. */
  function PaidOf(c: Challan): real {
    c.paidAmount.GetOr(0.0)
  }

  /** What is still owed on a challan. */
  function Balance(c: Challan): real {
    c.amount - PaidOf(c)
  }

  /** The status a challan gets whenever its paid amount changes. The three
      outcomes split the (paid, amount) plane with no overlap and no gap. */
  function DeriveStatus(paid: real, amount: real): (s: ChallanStatus)
    ensures s == Paid <==> paid >= amount
    ensures s == PartiallyPaid <==> 0.0 < paid < amount
    ensures s == Pending <==> paid <= 0.0 && paid < amount
  {
    if paid >= amount then Paid
    else if paid > 0.0 then PartiallyPaid
    else Pending
  }

  /** The payment dialog's fields. */
  datatype PaymentForm = PaymentForm(
    amount: real,
    date: string,
    paymentMethod: string,
    paymentReference: string,
    notes: string)

  /** The challans and payments the page has loaded. */
  datatype Ledger = Ledger(challans: seq<Challan>, payments: seq<Payment>)

  function PaymentAmount(p: Payment): real { p.amount }

  function ForChallan(cid: Id): Payment -> bool {
    (p: Payment) => p.challanId == cid
  }

  function NotPayment(pid: Id): Payment -> bool {
    (p: Payment) => p.id != pid
  }

  function OtherPaymentOf(cid: Id, pid: Id): Payment -> bool {
    (p: Payment) => p.challanId == cid && p.id != pid
  }

  /** The sum of the payments recorded against challan `cid`. */
  function PaidFor(ps: seq<Payment>, cid: Id): real
    decreases |ps|
  {
    if |ps| == 0 then 0.0
    else (if ps[0].challanId == cid then ps[0].amount else 0.0) + PaidFor(ps[1..], cid)
  }

  /** The page's own way of summing a challan's payments, filtering them
      and reducing, agrees with `PaidFor`. */
  lemma {:induction false} PaidForIsFilterSum(ps: seq<Payment>, cid: Id)
    ensures PaidFor(ps, cid) == SumOf(Filter(ps, ForChallan(cid)), PaymentAmount)
    decreases |ps|
  {
    if |ps| > 0 {
      PaidForIsFilterSum(ps[1..], cid);
      FilterHead(ps, ForChallan(cid));
      var rest := Filter(ps[1..], ForChallan(cid));
      if ps[0].challanId == cid {
        assert ([ps[0]] + rest)[0] == ps[0] && ([ps[0]] + rest)[1..] == rest;
      } else {
        assert [] + rest == rest;
      }
    }
  }

  /** The delete handler's recomputation: the payments of challan `cid`
      other than payment `pid`, summed. */
  function RemainingPaid(ps: seq<Payment>, cid: Id, pid: Id): real {
    SumOf(Filter(ps, OtherPaymentOf(cid, pid)), PaymentAmount)
  }

  predicate HasChallan(cs: seq<Challan>, cid: Id) {
    exists c :: c in cs && c.id == cid
  }

  /** `challans.find((c) => c.id === id)`. */
  function FindChallan(cs: seq<Challan>, cid: Id): (r: Option<Challan>)
    ensures r.None? <==> !HasChallan(cs, cid)
    ensures r.Some? ==> r.value in cs && r.value.id == cid
    decreases |cs|
  {
    if |cs| == 0 then None
    else if cs[0].id == cid then Some(cs[0])
    else
      assert HasChallan(cs, cid) ==> HasChallan(cs[1..], cid) by {
        if HasChallan(cs, cid) {
          var c :| c in cs && c.id == cid;
          assert c in cs[1..];
        }
      }
      FindChallan(cs[1..], cid)
  }

  /** The fields the record-payment handler writes on the challan row; every
      other field is left as it was. */
  predicate OnlyPaymentFieldsDiffer(before: Challan, after: Challan) {
    after == before.(paidAmount := after.paidAmount, status := after.status,
                     paymentDate := after.paymentDate, paymentMethod := after.paymentMethod,
                     paymentReference := after.paymentReference, notes := after.notes)
  }

  function StampPayment(cs: seq<Challan>, cid: Id, paid: real, status: ChallanStatus,
                        form: PaymentForm): (r: seq<Challan>)
    ensures |r| == |cs|
  {
    seq(|cs|, i requires 0 <= i < |cs| =>
      if cs[i].id == cid then
        cs[i].(paidAmount := Some(paid), status := status,
               paymentDate := Some(form.date), paymentMethod := OrNull(form.paymentMethod),
               paymentReference := OrNull(form.paymentReference), notes := OrNull(form.notes))
      else cs[i])
  }

  /** `handleRecordPayment`: reject a non-positive amount, reject an amount
      beyond the remaining balance (reporting that balance as the maximum),
      otherwise raise the challan's paid amount, re-derive its status, stamp
      the payment details on it and add one payment row. */
  function RecordPayment(l: Ledger, selected: Option<Challan>, form: PaymentForm, paymentId: Id)
    : (r: Result<Ledger, FeeError>)
    ensures selected.None? ==> r == Err(NoChallanSelected)
    ensures selected.Some? && form.amount <= 0.0 ==> r == Err(NonPositiveAmount)
    ensures selected.Some? && form.amount > 0.0 && PaidOf(selected.value) + form.amount > selected.value.amount
            ==> r == Err(ExceedsBalance(Balance(selected.value)))
    ensures r.Ok? <==> (selected.Some? && form.amount > 0.0
                        && PaidOf(selected.value) + form.amount <= selected.value.amount)
    ensures r.Ok? ==>
              var c := selected.value;
              && |r.value.payments| == |l.payments| + 1
              && r.value.payments[..|l.payments|] == l.payments
              && var p := r.value.payments[|l.payments|];
                 p.id == paymentId && p.challanId == c.id && p.studentId == c.studentId
                 && p.amount == form.amount
    ensures r.Ok? ==>
              var c := selected.value;
              var newPaid := PaidOf(c) + form.amount;
              && |r.value.challans| == |l.challans|
              && forall i :: 0 <= i < |l.challans| ==>
                   var before, after := l.challans[i], r.value.challans[i];
                   if before.id == c.id then
                     && OnlyPaymentFieldsDiffer(before, after)
                     && PaidOf(after) == newPaid
                     && after.status == DeriveStatus(newPaid, c.amount)
                   else after == before
  {
    match selected
    case None => Err(NoChallanSelected)
    case Some(c) =>
      if form.amount <= 0.0 then Err(NonPositiveAmount)
      else
        if PaidOf(c) + form.amount > c.amount then Err(ExceedsBalance(c.amount - PaidOf(c)))
        else Ok(ApplyPayment(l, c, form, paymentId))
  }

  /** The payment row the record handler inserts. */
  function NewPayment(c: Challan, form: PaymentForm, paymentId: Id): Payment {
    Payment(paymentId, c.id, c.studentId, form.amount, form.date,
            OrNull(form.paymentMethod), OrNull(form.paymentReference), OrNull(form.notes))
  }

  /** The accepted branch of `RecordPayment`. */
  function ApplyPayment(l: Ledger, c: Challan, form: PaymentForm, paymentId: Id): Ledger {
    var newPaid := PaidOf(c) + form.amount;
    Ledger(StampPayment(l.challans, c.id, newPaid, DeriveStatus(newPaid, c.amount), form),
           l.payments + [NewPayment(c, form, paymentId)])
  }

  function SetPaid(cs: seq<Challan>, cid: Id, paid: real, status: ChallanStatus): (r: seq<Challan>)
    ensures |r| == |cs|
  {
    seq(|cs|, i requires 0 <= i < |cs| =>
      if cs[i].id == cid then cs[i].(paidAmount := Some(paid), status := status) else cs[i])
  }

  /** `handleDeletePayment`: drop the payment; if its challan is loaded, set
      the challan's paid amount to the sum of that challan's other payments
      and re-derive the status from it. */
  function DeletePayment(l: Ledger, toDelete: Option<Payment>): (r: Result<Ledger, FeeError>)
    ensures r.Err? <==> toDelete.None?
    ensures r.Err? ==> r.error == NoPaymentSelected
    ensures r.Ok? ==> forall q :: q in r.value.payments <==> q in l.payments && q.id != toDelete.value.id
    ensures r.Ok? && !HasChallan(l.challans, toDelete.value.challanId) ==> r.value.challans == l.challans
    ensures r.Ok? && HasChallan(l.challans, toDelete.value.challanId) ==>
              var p := toDelete.value;
              var c := FindChallan(l.challans, p.challanId).value;
              var newPaid := RemainingPaid(l.payments, c.id, p.id);
              && |r.value.challans| == |l.challans|
              && forall i :: 0 <= i < |l.challans| ==>
                   var before, after := l.challans[i], r.value.challans[i];
                   if before.id == c.id then
                     && after == before.(paidAmount := after.paidAmount, status := after.status)
                     && PaidOf(after) == newPaid
                     && after.status == DeriveStatus(newPaid, c.amount)
                   else after == before
  {
    match toDelete
    case None => Err(NoPaymentSelected)
    case Some(p) =>
      var payments := Filter(l.payments, NotPayment(p.id));
      match FindChallan(l.challans, p.challanId)
      case None => Ok(Ledger(l.challans, payments))
      case Some(c) =>
        var newPaid := RemainingPaid(l.payments, c.id, p.id);
        Ok(Ledger(SetPaid(l.challans, c.id, newPaid, DeriveStatus(newPaid, c.amount)), payments))
  }

  // ---------------------------------------------------------------------
  // The ledger invariant

  /** A challan's id identifies one row. */
  predicate ChallanIdsAreKeys(cs: seq<Challan>) {
    forall a, b :: a in cs && b in cs && a.id == b.id ==> a == b
  }

  predicate PaymentIdsAreKeys(ps: seq<Payment>) {
    forall a, b :: a in ps && b in ps && a.id == b.id ==> a == b
  }

  /** The status matches the derivation rule, unless it is one of the
      statuses assigned outside the ledger. */
  predicate StatusAgrees(c: Challan) {
    c.status == DeriveStatus(PaidOf(c), c.amount) || c.status == Overdue || c.status == Cancelled
  }

  /** A challan's paid amount is the sum of its payments, lies within
      0..amount, and its status agrees with it. */
  predicate Settled(c: Challan, ps: seq<Payment>) {
    && PaidOf(c) == PaidFor(ps, c.id)
    && 0.0 <= PaidOf(c) <= c.amount
    && StatusAgrees(c)
  }

  predicate Consistent(l: Ledger) {
    && ChallanIdsAreKeys(l.challans)
    && PaymentIdsAreKeys(l.payments)
    && (forall p :: p in l.payments ==> p.amount > 0.0 && HasChallan(l.challans, p.challanId))
    && (forall c :: c in l.challans ==> Settled(c, l.payments))
  }

  lemma PaidForAppend(ps: seq<Payment>, p: Payment, cid: Id)
    ensures PaidFor(ps + [p], cid) == PaidFor(ps, cid) + (if p.challanId == cid then p.amount else 0.0)
  {
    PaidForIsFilterSum(ps + [p], cid);
    PaidForIsFilterSum(ps, cid);
    FilterAppend(ps, [p], ForChallan(cid));
    SumOfAppend(Filter(ps, ForChallan(cid)), Filter([p], ForChallan(cid)), PaymentAmount);
    assert Filter([p], ForChallan(cid)) == (if p.challanId == cid then [p] else []) by {
      assert [p][1..] == [];
    }
  }

  /** Two challan lists with the same ids, row by row. */
  predicate SameIds(a: seq<Challan>, b: seq<Challan>) {
    |a| == |b| && forall i :: 0 <= i < |a| ==> a[i].id == b[i].id
  }

  lemma SameIdsKeepChallans(a: seq<Challan>, b: seq<Challan>, cid: Id)
    requires SameIds(a, b) && HasChallan(a, cid)
    ensures HasChallan(b, cid)
  {
    var d :| d in a && d.id == cid;
    var i :| 0 <= i < |a| && a[i] == d;
    assert b[i] in b;
  }

  /** Rewriting every row of one id the same way keeps ids as keys. */
  lemma StampPaymentShape(cs: seq<Challan>, cid: Id, paid: real, status: ChallanStatus, form: PaymentForm)
    requires ChallanIdsAreKeys(cs)
    ensures SameIds(cs, StampPayment(cs, cid, paid, status, form))
    ensures ChallanIdsAreKeys(StampPayment(cs, cid, paid, status, form))
  {
    var r := StampPayment(cs, cid, paid, status, form);
    forall a, b | a in r && b in r && a.id == b.id
      ensures a == b
    {
      var i :| 0 <= i < |r| && r[i] == a;
      var j :| 0 <= j < |r| && r[j] == b;
      assert cs[i] in cs && cs[j] in cs;
    }
  }

  lemma SetPaidShape(cs: seq<Challan>, cid: Id, paid: real, status: ChallanStatus)
    requires ChallanIdsAreKeys(cs)
    ensures SameIds(cs, SetPaid(cs, cid, paid, status))
    ensures ChallanIdsAreKeys(SetPaid(cs, cid, paid, status))
  {
    var r := SetPaid(cs, cid, paid, status);
    forall a, b | a in r && b in r && a.id == b.id
      ensures a == b
    {
      var i :| 0 <= i < |r| && r[i] == a;
      var j :| 0 <= j < |r| && r[j] == b;
      assert cs[i] in cs && cs[j] in cs;
    }
  }

  lemma AppendFreshPaymentKeys(ps: seq<Payment>, p: Payment)
    requires PaymentIdsAreKeys(ps)
    requires forall q :: q in ps ==> q.id != p.id
    ensures PaymentIdsAreKeys(ps + [p])
  {
    forall a, b | a in ps + [p] && b in ps + [p] && a.id == b.id
      ensures a == b
    {
      assert a in ps || a == p;
      assert b in ps || b == p;
    }
  }

  /** The row-by-row half of `RecordPaymentPreservesConsistency`. */
  lemma StampedRowsSettled(cs: seq<Challan>, ps: seq<Payment>, c: Challan, p: Payment, form: PaymentForm,
                           newPaid: real, status: ChallanStatus)
    requires ChallanIdsAreKeys(cs) && c in cs
    requires forall d :: d in cs ==> Settled(d, ps)
    requires p.challanId == c.id && p.amount > 0.0 && PaidOf(c) + p.amount <= c.amount
    requires newPaid == PaidOf(c) + p.amount && status == DeriveStatus(newPaid, c.amount)
    ensures forall d :: d in StampPayment(cs, c.id, newPaid, status, form) ==> Settled(d, ps + [p])
  {
    var cs' := StampPayment(cs, c.id, newPaid, status, form);
    forall d | d in cs'
      ensures Settled(d, ps + [p])
    {
      var i :| 0 <= i < |cs'| && cs'[i] == d;
      var before := cs[i];
      assert before in cs;
      PaidForAppend(ps, p, before.id);
      if before.id == c.id {
        assert before == c;
      }
    }
  }

  /** The accepted branch of recording a payment keeps the ledger
      consistent. */
  lemma ApplyPaymentPreservesConsistency(l: Ledger, c: Challan, form: PaymentForm, paymentId: Id)
    requires Consistent(l)
    requires c in l.challans
    requires forall p :: p in l.payments ==> p.id != paymentId
    requires form.amount > 0.0 && PaidOf(c) + form.amount <= c.amount
    ensures Consistent(ApplyPayment(l, c, form, paymentId))
  {
    var newPaid := PaidOf(c) + form.amount;
    var status := DeriveStatus(newPaid, c.amount);
    var p := NewPayment(c, form, paymentId);
    var cs' := StampPayment(l.challans, c.id, newPaid, status, form);
    var ps' := l.payments + [p];
    assert ApplyPayment(l, c, form, paymentId) == Ledger(cs', ps');
    assert ChallanIdsAreKeys(cs') by {
      StampPaymentShape(l.challans, c.id, newPaid, status, form);
    }
    assert PaymentIdsAreKeys(ps') by {
      AppendFreshPaymentKeys(l.payments, p);
    }
    assert forall d :: d in cs' ==> Settled(d, ps') by {
      assert p.amount == form.amount && p.challanId == c.id;
      StampedRowsSettled(l.challans, l.payments, c, p, form, newPaid, status);
    }
    assert forall q :: q in ps' ==> q.amount > 0.0 && HasChallan(cs', q.challanId) by {
      StampPaymentShape(l.challans, c.id, newPaid, status, form);
      assert HasChallan(l.challans, p.challanId);
      AppendedPaymentsBelong(l.challans, cs', l.payments, p);
    }
  }

  /** Every payment, the appended one included, still belongs to a loaded
      challan once the challan rows are rewritten with the same ids. */
  lemma AppendedPaymentsBelong(cs: seq<Challan>, cs': seq<Challan>, ps: seq<Payment>, p: Payment)
    requires SameIds(cs, cs')
    requires forall q :: q in ps ==> q.amount > 0.0 && HasChallan(cs, q.challanId)
    requires p.amount > 0.0 && HasChallan(cs, p.challanId)
    ensures forall q :: q in ps + [p] ==> q.amount > 0.0 && HasChallan(cs', q.challanId)
  {
    forall q | q in ps + [p]
      ensures q.amount > 0.0 && HasChallan(cs', q.challanId)
    {
      SameIdsKeepChallans(cs, cs', q.challanId);
    }
  }

  /** Recording a payment keeps the ledger consistent: the challan's paid
      amount stays the sum of its payments, stays within 0..amount, and its
      status is the derived one. */
  lemma RecordPaymentPreservesConsistency(l: Ledger, c: Challan, form: PaymentForm, paymentId: Id)
    requires Consistent(l)
    requires c in l.challans
    requires forall p :: p in l.payments ==> p.id != paymentId
    requires RecordPayment(l, Some(c), form, paymentId).Ok?
    ensures Consistent(RecordPayment(l, Some(c), form, paymentId).value)
  {
    ApplyPaymentPreservesConsistency(l, c, form, paymentId);
  }

  /** After deleting payment `pid`, every challan's payments sum to the
      delete handler's recomputation. */
  lemma PaidForAfterDelete(ps: seq<Payment>, pid: Id, cid: Id)
    ensures PaidFor(Filter(ps, NotPayment(pid)), cid) == RemainingPaid(ps, cid, pid)
  {
    var kept := Filter(ps, NotPayment(pid));
    assert Filter(kept, ForChallan(cid)) == Filter(ps, OtherPaymentOf(cid, pid)) by {
      FilterFilter(ps, NotPayment(pid), ForChallan(cid), OtherPaymentOf(cid, pid));
    }
    PaidForIsFilterSum(kept, cid);
  }

  /** For a challan other than the deleted payment's, nothing is removed. */
  lemma RemainingPaidOtherChallan(ps: seq<Payment>, p: Payment, cid: Id)
    requires PaymentIdsAreKeys(ps)
    requires p in ps && p.challanId != cid
    ensures RemainingPaid(ps, cid, p.id) == PaidFor(ps, cid)
  {
    forall i | 0 <= i < |ps|
      ensures OtherPaymentOf(cid, p.id)(ps[i]) == ForChallan(cid)(ps[i])
    {
      assert ps[i] in ps;
    }
    FilterExt(ps, OtherPaymentOf(cid, p.id), ForChallan(cid));
    PaidForIsFilterSum(ps, cid);
  }

  /** The recomputed paid amount is never negative and never more than
      the sum of all the challan's payments. */
  lemma RemainingPaidBounds(ps: seq<Payment>, cid: Id, pid: Id)
    requires forall p :: p in ps ==> p.amount > 0.0
    ensures 0.0 <= RemainingPaid(ps, cid, pid) <= PaidFor(ps, cid)
  {
    forall i | 0 <= i < |ps|
      ensures (OtherPaymentOf(cid, pid)(ps[i]) ==> ForChallan(cid)(ps[i])) && PaymentAmount(ps[i]) >= 0.0
    {
      assert ps[i] in ps;
    }
    SumOfFilterMonotone(ps, ForChallan(cid), OtherPaymentOf(cid, pid), PaymentAmount);
    var rest := Filter(ps, OtherPaymentOf(cid, pid));
    forall i | 0 <= i < |rest| ensures PaymentAmount(rest[i]) >= 0.0 {
      assert rest[i] in ps;
    }
    SumOfNonNegative(rest, PaymentAmount);
    PaidForIsFilterSum(ps, cid);
  }

  /** The row-by-row half of `DeletePaymentPreservesConsistency`. */
  lemma RecomputedRowsSettled(cs: seq<Challan>, ps: seq<Payment>, c: Challan, p: Payment)
    requires ChallanIdsAreKeys(cs) && PaymentIdsAreKeys(ps)
    requires c in cs && p in ps && p.challanId == c.id
    requires forall q :: q in ps ==> q.amount > 0.0
    requires forall d :: d in cs ==> Settled(d, ps)
    ensures forall d :: d in SetPaid(cs, c.id, RemainingPaid(ps, c.id, p.id),
                                     DeriveStatus(RemainingPaid(ps, c.id, p.id), c.amount))
              ==> Settled(d, Filter(ps, NotPayment(p.id)))
  {
    var newPaid := RemainingPaid(ps, c.id, p.id);
    var cs' := SetPaid(cs, c.id, newPaid, DeriveStatus(newPaid, c.amount));
    forall d | d in cs'
      ensures Settled(d, Filter(ps, NotPayment(p.id)))
    {
      var i :| 0 <= i < |cs'| && cs'[i] == d;
      assert cs[i] in cs;
      RecomputedRowSettled(cs[i], ps, c, p);
    }
  }

  lemma RecomputedRowSettled(before: Challan, ps: seq<Payment>, c: Challan, p: Payment)
    requires PaymentIdsAreKeys(ps)
    requires p in ps && p.challanId == c.id
    requires before.id == c.id ==> before == c
    requires forall q :: q in ps ==> q.amount > 0.0
    requires Settled(before, ps)
    ensures var newPaid := RemainingPaid(ps, c.id, p.id);
            Settled(if before.id == c.id then before.(paidAmount := Some(newPaid), status := DeriveStatus(newPaid, c.amount))
                    else before,
                    Filter(ps, NotPayment(p.id)))
  {
    PaidForAfterDelete(ps, p.id, before.id);
    if before.id == c.id {
      RemainingPaidBounds(ps, c.id, p.id);
    } else {
      RemainingPaidOtherChallan(ps, p, before.id);
    }
  }

  /** Deleting a loaded payment keeps the ledger consistent. */
  lemma DeletePaymentPreservesConsistency(l: Ledger, p: Payment)
    requires Consistent(l)
    requires p in l.payments
    ensures Consistent(DeletePayment(l, Some(p)).value)
  {
    var ps' := Filter(l.payments, NotPayment(p.id));
    assert HasChallan(l.challans, p.challanId);
    var c := FindChallan(l.challans, p.challanId).value;
    var newPaid := RemainingPaid(l.payments, c.id, p.id);
    var cs' := SetPaid(l.challans, c.id, newPaid, DeriveStatus(newPaid, c.amount));
    assert DeletePayment(l, Some(p)).value == Ledger(cs', ps');
    SetPaidShape(l.challans, c.id, newPaid, DeriveStatus(newPaid, c.amount));
    RecomputedRowsSettled(l.challans, l.payments, c, p);
    forall q | q in ps'
      ensures HasChallan(cs', q.challanId)
    {
      SameIdsKeepChallans(l.challans, cs', q.challanId);
    }
  }

  // ---------------------------------------------------------------------
  // The payment dialog

  /** `handleOpenPaymentDialog`: the amount field starts at the remaining
      balance. */
  function DefaultPaymentAmount(c: Challan): real {
    Balance(c)
  }

  /** The amount field's `onChange`: a typed value is capped at the
      remaining balance. */
  function CapTypedAmount(c: Challan, typed: real): (r: real)
    ensures r <= Balance(c)
    ensures r == typed || r == Balance(c)
  {
    if typed < Balance(c) then typed else Balance(c)
  }

  /** Paying the default amount on a challan that still owes something
      settles it in full. */
  lemma DefaultPaymentSettles(l: Ledger, c: Challan, form: PaymentForm, paymentId: Id)
    requires PaidOf(c) < c.amount
    requires form.amount == DefaultPaymentAmount(c)
    ensures RecordPayment(l, Some(c), form, paymentId).Ok?
    ensures forall i :: 0 <= i < |l.challans| && l.challans[i].id == c.id ==>
              var after := RecordPayment(l, Some(c), form, paymentId).value.challans[i];
              PaidOf(after) == c.amount && after.status == Paid
  {
  }

  /** A capped amount is never refused for exceeding the balance. */
  lemma CappedAmountNeverExceeds(l: Ledger, c: Challan, typed: real, form: PaymentForm, paymentId: Id)
    requires form.amount == CapTypedAmount(c, typed)
    ensures !RecordPayment(l, Some(c), form, paymentId).Err?
            || !RecordPayment(l, Some(c), form, paymentId).error.ExceedsBalance?
  {
  }

  // ---------------------------------------------------------------------
  // The pending and paid lists and their totals

  /** A challan still listed for collection. */
  predicate IsOutstanding(c: Challan) {
    c.status == Pending || c.status == Overdue || c.status == PartiallyPaid
  }

  /** A challan listed in the payment history. */
  predicate IsFullyPaid(c: Challan) {
    c.status == Paid && PaidOf(c) >= c.amount
  }

  function PendingChallans(cs: seq<Challan>): seq<Challan> {
    Filter(cs, IsOutstanding)
  }

  function PaidChallans(cs: seq<Challan>): seq<Challan> {
    Filter(cs, IsFullyPaid)
  }

  /** `totalPending`: the balances of the pending list, summed. */
  function TotalPending(cs: seq<Challan>): real {
    SumOf(PendingChallans(cs), Balance)
  }

  /** `totalPaid`: the paid amounts of every loaded challan, summed. */
  function TotalPaid(cs: seq<Challan>): real {
    SumOf(cs, PaidOf)
  }

  /** In a consistent ledger every challan that is not cancelled appears in
      exactly one of the two lists. */
  lemma ListsPartitionLedger(l: Ledger, c: Challan)
    requires Consistent(l)
    requires c in l.challans && c.status != Cancelled
    ensures c in PendingChallans(l.challans) <==> c !in PaidChallans(l.challans)
  {
    assert Settled(c, l.payments);
  }

  /** In a consistent ledger the amount still to collect is never negative
      and never more than the pending challans' face value. */
  lemma TotalPendingBounds(l: Ledger)
    requires Consistent(l)
    ensures 0.0 <= TotalPending(l.challans)
    ensures TotalPending(l.challans) <= SumOf(PendingChallans(l.challans), (c: Challan) => c.amount)
  {
    var pending := PendingChallans(l.challans);
    forall i | 0 <= i < |pending|
      ensures 0.0 <= Balance(pending[i]) <= pending[i].amount
    {
      assert pending[i] in l.challans;
      assert Settled(pending[i], l.payments);
    }
    SumOfNonNegative(pending, Balance);
    SumOfMonotone(pending, Balance, (c: Challan) => c.amount);
  }

  /** A worked sequence on a challan of 1000: paying 400 leaves it
      partially paid, paying 600 more settles it, a further 1 is refused
      with a maximum of 0, and deleting the 400 payment brings it back to
      600, partially paid. */
  lemma PaymentWalkthrough(c: Challan, form: PaymentForm)
    requires c.amount == 1000.0 && c.paidAmount.None?
    ensures var l0 := Ledger([c], []);
            var r1 := RecordPayment(l0, Some(c), form.(amount := 400.0), 1);
            && r1.Ok? && PaidOf(r1.value.challans[0]) == 400.0 && r1.value.challans[0].status == PartiallyPaid
            && var c1 := r1.value.challans[0];
               var r2 := RecordPayment(r1.value, Some(c1), form.(amount := 600.0), 2);
               && r2.Ok? && PaidOf(r2.value.challans[0]) == 1000.0 && r2.value.challans[0].status == Paid
               && var c2 := r2.value.challans[0];
                  && RecordPayment(r2.value, Some(c2), form.(amount := 1.0), 3) == Err(ExceedsBalance(0.0))
                  && var r3 := DeletePayment(r2.value, Some(r2.value.payments[0]));
                     && r3.Ok? && PaidOf(r3.value.challans[0]) == 600.0 && r3.value.challans[0].status == PartiallyPaid
  {
    var l0 := Ledger([c], []);
    var r1 := RecordPayment(l0, Some(c), form.(amount := 400.0), 1);
    var c1 := r1.value.challans[0];
    var r2 := RecordPayment(r1.value, Some(c1), form.(amount := 600.0), 2);
    var l2 := r2.value;
    var p400 := l2.payments[0];
    assert p400.id == 1 && p400.challanId == c.id && p400.amount == 400.0;
    assert l2.payments[1].id == 2 && l2.payments[1].challanId == c.id && l2.payments[1].amount == 600.0;
    assert |l2.payments| == 2;
    assert FindChallan(l2.challans, c.id) == Some(l2.challans[0]);
    var p600 := l2.payments[1];
    assert l2.payments == [p400, p600];
    assert [p400, p600][1..] == [p600] && [p600][1..] == [];
    assert Filter([p600], OtherPaymentOf(c.id, 1)) == [p600];
    assert Filter(l2.payments, OtherPaymentOf(c.id, 1)) == [p600];
    assert SumOf([p600], PaymentAmount) == 600.0;
  }
}
