/** The dashboard's figures: attendance for today, the week and the
    month, enrollments per program and the five largest programs, the
    number of billable fee plans, challan counts by status and the billed,
    paid and pending amounts. */
module Dashboard {
  import opened Wrappers
  import opened Seqs
  import opened Numbers
  import opened Domain
  import opened FeeCollection
  import FeeChallans

  // ---------------------------------------------------------------------
  // Attendance

  function IsStatus(s: AttendanceStatus): Attendance -> bool {
    (a: Attendance) => a.status == s
  }

  function Attends(): Attendance -> bool {
    (a: Attendance) => a.status == Present || a.status == Late
  }

  datatype DayStats = DayStats(total: nat, present: nat, absent: nat, late: nat, excused: nat, percentage: int)

  /** Today's card: a count per status and the share present, rounded to
      a whole percent (0 with no records). Late does not count here. */
  function TodayStats(records: seq<Attendance>): (r: DayStats)
    ensures r.total == |records|
    ensures r.present + r.absent + r.late + r.excused == r.total
    ensures 0 <= r.percentage <= 100
    ensures r.total == 0 ==> r.percentage == 0
    ensures r.total > 0 ==>
              r.percentage as real - 0.5 <= r.present as real / r.total as real * 100.0 < r.percentage as real + 0.5
  {
    StatusesPartition(records);
    var present := Count(records, IsStatus(Present));
    var r := DayStats(|records|, present, Count(records, IsStatus(Absent)),
                      Count(records, IsStatus(Late)), Count(records, IsStatus(Excused)),
                      Percent(present, |records|));
    r
  }

  /** Every record has exactly one of the four statuses. */
  lemma {:induction false} StatusesPartition(records: seq<Attendance>)
    ensures Count(records, IsStatus(Present)) + Count(records, IsStatus(Absent))
            + Count(records, IsStatus(Late)) + Count(records, IsStatus(Excused)) == |records|
    decreases |records|
  {
    if |records| > 0 {
      StatusesPartition(records[1..]);
      CountCons(records, IsStatus(Present));
      CountCons(records, IsStatus(Absent));
      CountCons(records, IsStatus(Late));
      CountCons(records, IsStatus(Excused));
      var s := records[0].status;
      assert IsStatus(Present)(records[0]) == (s == Present);
      assert IsStatus(Absent)(records[0]) == (s == Absent);
      assert IsStatus(Late)(records[0]) == (s == Late);
      assert IsStatus(Excused)(records[0]) == (s == Excused);
    }
  }

  datatype PeriodStats = PeriodStats(total: nat, present: nat, percentage: int)

  /** The week and month cards: "present" there counts late arrivals too. */
  function PeriodStatsOf(records: seq<Attendance>): (r: PeriodStats)
    ensures r.total == |records| && r.present <= r.total
    ensures 0 <= r.percentage <= 100
    ensures r.total == 0 ==> r.percentage == 0
    ensures r.total > 0 ==>
              r.percentage as real - 0.5 <= r.present as real / r.total as real * 100.0 < r.percentage as real + 0.5
  {
    var present := Count(records, Attends());
    PeriodStats(|records|, present, Percent(present, |records|))
  }

  /** Today's counts, record by record: no records give all zeros, and one
      more record raises exactly the count of its own status. */
  lemma TodayStatsByRecord(records: seq<Attendance>, a: Attendance)
    ensures TodayStats([]) == DayStats(0, 0, 0, 0, 0, 0)
    ensures var r := TodayStats(records);
            var r' := TodayStats(records + [a]);
            && r'.total == r.total + 1
            && r'.present == r.present + (if a.status == Present then 1 else 0)
            && r'.absent == r.absent + (if a.status == Absent then 1 else 0)
            && r'.late == r.late + (if a.status == Late then 1 else 0)
            && r'.excused == r.excused + (if a.status == Excused then 1 else 0)
  {
    CountSnoc(records, a, IsStatus(Present));
    CountSnoc(records, a, IsStatus(Absent));
    CountSnoc(records, a, IsStatus(Late));
    CountSnoc(records, a, IsStatus(Excused));
  }

  /** The week and month counts, record by record: a present or a late
      record raises the present count, any other record only the total. */
  lemma PeriodStatsByRecord(records: seq<Attendance>, a: Attendance)
    ensures PeriodStatsOf([]) == PeriodStats(0, 0, 0)
    ensures var r := PeriodStatsOf(records);
            var r' := PeriodStatsOf(records + [a]);
            && r'.total == r.total + 1
            && r'.present == r.present + (if a.status == Present || a.status == Late then 1 else 0)
  {
    CountSnoc(records, a, Attends());
  }

  /** The period count is the present count plus the late count. */
  lemma {:induction false} PeriodPresentCountsLate(records: seq<Attendance>)
    ensures Count(records, Attends()) == Count(records, IsStatus(Present)) + Count(records, IsStatus(Late))
    decreases |records|
  {
    if |records| > 0 {
      PeriodPresentCountsLate(records[1..]);
      CountCons(records, Attends());
      CountCons(records, IsStatus(Present));
      CountCons(records, IsStatus(Late));
      var s := records[0].status;
      assert Attends()(records[0]) == (s == Present || s == Late);
      assert IsStatus(Present)(records[0]) == (s == Present);
      assert IsStatus(Late)(records[0]) == (s == Late);
    }
  }

  /** Over the same records the week/month rule never reports a lower
      percentage than today's rule. */
  lemma PeriodPercentAtLeastToday(records: seq<Attendance>)
    ensures PeriodStatsOf(records).present == TodayStats(records).present + TodayStats(records).late
    ensures PeriodStatsOf(records).percentage >= TodayStats(records).percentage
  {
    PeriodPresentCountsLate(records);
    PercentMonotone(TodayStats(records).present, PeriodStatsOf(records).present, |records|);
  }

  // ---------------------------------------------------------------------
  // Enrollments per program

  /** One entry of `programCounts`. */
  datatype ProgramCount = ProgramCount(programId: Id, count: nat)

  /** The count recorded for a program, 0 when it has no entry. */
  function CountOf(t: seq<ProgramCount>, id: Id): nat
    decreases |t|
  {
    if |t| == 0 then 0 else if t[0].programId == id then t[0].count else CountOf(t[1..], id)
  }

  predicate HasEntry(t: seq<ProgramCount>, id: Id) {
    exists i :: 0 <= i < |t| && t[i].programId == id
  }

  /** The keys of a JavaScript object with integer keys enumerate in
      ascending order. */
  predicate IdsAscending(t: seq<ProgramCount>) {
    forall i, j :: 0 <= i < j < |t| ==> t[i].programId < t[j].programId
  }

  function SumCounts(t: seq<ProgramCount>): nat
    decreases |t|
  {
    if |t| == 0 then 0 else t[0].count + SumCounts(t[1..])
  }

  /** `programCounts[id] = (programCounts[id] || 0) + 1`, keeping the
      keys in ascending order. */
  function Bump(t: seq<ProgramCount>, id: Id): seq<ProgramCount>
    decreases |t|
  {
    if |t| == 0 then [ProgramCount(id, 1)]
    else if t[0].programId == id then [t[0].(count := t[0].count + 1)] + t[1..]
    else if id < t[0].programId then [ProgramCount(id, 1)] + t
    else [t[0]] + Bump(t[1..], id)
  }

  /** Bumping keeps the keys ascending and adds no key but `id`. */
  lemma {:induction false} BumpAscending(t: seq<ProgramCount>, id: Id)
    requires IdsAscending(t)
    ensures IdsAscending(Bump(t, id))
    ensures forall i :: 0 <= i < |Bump(t, id)| ==> Bump(t, id)[i].programId == id || HasEntry(t, Bump(t, id)[i].programId)
    decreases |t|
  {
    if |t| > 0 && t[0].programId != id && id >= t[0].programId {
      BumpAscending(t[1..], id);
      var rest := Bump(t[1..], id);
      forall i | 0 <= i < |rest| && HasEntry(t[1..], rest[i].programId) ensures HasEntry(t, rest[i].programId) {
        var k :| 0 <= k < |t[1..]| && t[1..][k].programId == rest[i].programId;
        assert t[k + 1].programId == rest[i].programId;
      }
      forall i | 0 <= i < |rest| ensures t[0].programId < rest[i].programId {
        if rest[i].programId != id {
          var k :| 0 <= k < |t[1..]| && t[1..][k].programId == rest[i].programId;
          assert t[k + 1] == t[1..][k];
        }
      }
    }
  }

  /** Bumping adds one to the count of `id` and to no other. */
  lemma {:induction false} BumpCount(t: seq<ProgramCount>, id: Id, p: Id)
    requires IdsAscending(t)
    ensures CountOf(Bump(t, id), p) == CountOf(t, p) + (if p == id then 1 else 0)
    decreases |t|
  {
    if |t| > 0 {
      if t[0].programId == id {
        if p != id && |t| > 1 { assert CountOf(Bump(t, id), p) == CountOf(t[1..], p); }
      } else if id < t[0].programId {
        if p == id { NoEntryBelow(t, id); }
      } else {
        BumpCount(t[1..], id, p);
      }
    }
  }

  lemma {:induction false} BumpSum(t: seq<ProgramCount>, id: Id)
    ensures SumCounts(Bump(t, id)) == SumCounts(t) + 1
    ensures (forall i :: 0 <= i < |t| ==> t[i].count > 0) ==> forall i :: 0 <= i < |Bump(t, id)| ==> Bump(t, id)[i].count > 0
    decreases |t|
  {
    if |t| > 0 && t[0].programId != id && id >= t[0].programId {
      BumpSum(t[1..], id);
      assert forall i :: 0 <= i < |t[1..]| ==> t[1..][i] == t[i + 1];
    } else if |t| > 0 {
      assert [t[0].(count := t[0].count + 1)] + t[1..] == [t[0].(count := t[0].count + 1)] + t[1..];
    }
  }

  /** An id below every key has no entry. */
  lemma {:induction false} NoEntryBelow(t: seq<ProgramCount>, id: Id)
    requires IdsAscending(t) && |t| > 0 && id < t[0].programId
    ensures CountOf(t, id) == 0
    decreases |t|
  {
    if |t| > 1 {
      NoEntryBelow(t[1..], id);
    }
  }

  /** The per-program tally of the active assignments' program ids, in
      ascending id order: each program's count is how often its id occurs,
      and the counts add up to the number of assignments. */
  function Tally(ids: seq<Id>): (r: seq<ProgramCount>)
    ensures IdsAscending(r)
    ensures forall p :: CountOf(r, p) == multiset(ids)[p]
    ensures SumCounts(r) == |ids|
    ensures forall i :: 0 <= i < |r| ==> r[i].count > 0
    decreases |ids|
  {
    if |ids| == 0 then []
    else
      var init := ids[..|ids| - 1];
      var last := ids[|ids| - 1];
      var t := Tally(init);
      assert ids == init + [last];
      BumpAscending(t, last);
      BumpSum(t, last);
      assert forall p :: CountOf(Bump(t, last), p) == multiset(ids)[p] by {
        forall p ensures CountOf(Bump(t, last), p) == multiset(ids)[p] {
          BumpCount(t, last, p);
        }
      }
      Bump(t, last)
  }

  /** Ids being ascending, an entry's count is the count recorded for
      its id. */
  lemma CountOfEntry(t: seq<ProgramCount>, i: nat)
    requires IdsAscending(t) && i < |t|
    ensures CountOf(t, t[i].programId) == t[i].count
    decreases i
  {
    if i > 0 {
      CountOfEntry(t[1..], i - 1);
    }
  }

  // ---------------------------------------------------------------------
  // Ranking

  /** The order after the stable descending sort of ascending-id entries:
      larger counts first, ties in ascending id order. */
  predicate Before(a: ProgramCount, b: ProgramCount) {
    a.count > b.count || (a.count == b.count && a.programId < b.programId)
  }

  predicate Ranked(t: seq<ProgramCount>) {
    forall i :: 0 <= i < |t| - 1 ==> Before(t[i], t[i + 1])
  }

  predicate DistinctIds(t: seq<ProgramCount>) {
    forall i, j :: 0 <= i < j < |t| ==> t[i].programId != t[j].programId
  }

  /** One step of the stable sort: the later entry goes after every entry
      with a count at least its own. */
  function Insert(sorted: seq<ProgramCount>, x: ProgramCount): seq<ProgramCount>
    decreases |sorted|
  {
    if |sorted| == 0 then [x]
    else if sorted[0].count < x.count then [x] + sorted
    else [sorted[0]] + Insert(sorted[1..], x)
  }

  /** Inserting adds exactly the one entry. */
  lemma {:induction false} InsertMembers(sorted: seq<ProgramCount>, x: ProgramCount)
    ensures multiset(Insert(sorted, x)) == multiset(sorted) + multiset{x}
    ensures forall e :: e in Insert(sorted, x) <==> e in sorted || e == x
    ensures |sorted| > 0 ==> Insert(sorted, x)[0] == x || Insert(sorted, x)[0] == sorted[0]
    decreases |sorted|
  {
    if |sorted| > 0 && sorted[0].count >= x.count {
      InsertMembers(sorted[1..], x);
      assert sorted == [sorted[0]] + sorted[1..];
    }
  }

  /** Inserting an entry whose id is above all others keeps the ranking. */
  lemma {:induction false} InsertRanked(sorted: seq<ProgramCount>, x: ProgramCount)
    requires Ranked(sorted)
    requires forall e :: e in sorted ==> e.programId < x.programId
    ensures Ranked(Insert(sorted, x))
    decreases |sorted|
  {
    if |sorted| > 0 && sorted[0].count >= x.count {
      var tail := sorted[1..];
      assert forall k :: 0 <= k < |tail| ==> tail[k] == sorted[k + 1];
      InsertRanked(tail, x);
      InsertMembers(tail, x);
    }
  }

  /** Inserting an entry with a new id keeps the ids distinct. */
  lemma {:induction false} InsertDistinct(sorted: seq<ProgramCount>, x: ProgramCount)
    requires DistinctIds(sorted)
    requires forall e :: e in sorted ==> e.programId != x.programId
    ensures DistinctIds(Insert(sorted, x))
    decreases |sorted|
  {
    if |sorted| > 0 && sorted[0].count >= x.count {
      var tail := sorted[1..];
      assert forall k :: 0 <= k < |tail| ==> tail[k] == sorted[k + 1];
      InsertDistinct(tail, x);
      InsertMembers(tail, x);
      var rest := Insert(tail, x);
      forall e | e in rest ensures e.programId != sorted[0].programId {
        if e in tail {
          var k :| 0 <= k < |tail| && tail[k] == e;
        }
      }
    }
  }

  /** `.sort((a, b) => b.count - a.count)` on the ascending-id entries. */
  function SortByCount(t: seq<ProgramCount>): (r: seq<ProgramCount>)
    requires IdsAscending(t)
    ensures Ranked(r) && DistinctIds(r)
    ensures multiset(r) == multiset(t)
    ensures forall e :: e in r <==> e in t
    decreases |t|
  {
    if |t| == 0 then []
    else
      var init := t[..|t| - 1];
      var last := t[|t| - 1];
      assert forall k :: 0 <= k < |init| ==> init[k] == t[k];
      var sorted := SortByCount(init);
      assert t == init + [last];
      assert forall e :: e in sorted ==> e.programId < last.programId by {
        forall e | e in sorted ensures e.programId < last.programId {
          assert e in init;
          var k :| 0 <= k < |init| && init[k] == e;
        }
      }
      InsertMembers(sorted, last);
      InsertRanked(sorted, last);
      InsertDistinct(sorted, last);
      Insert(sorted, last)
  }

  /** Adjacent order extends to every pair: counts never increase. */
  lemma {:induction false} RankedNonIncreasing(t: seq<ProgramCount>)
    requires Ranked(t)
    ensures forall i, j :: 0 <= i < j < |t| ==> t[i].count >= t[j].count
    decreases |t|
  {
    if |t| > 1 {
      RankedNonIncreasing(t[1..]);
      forall i, j | 0 <= i < j < |t| ensures t[i].count >= t[j].count {
        if i > 0 {
          assert t[i] == t[1..][i - 1] && t[j] == t[1..][j - 1];
        } else if j > 1 {
          assert t[1] == t[1..][0] && t[j] == t[1..][j - 1];
        }
      }
    }
  }

  /** One line of the "top programs" card. */
  datatype TopProgram = TopProgram(programId: Id, count: nat, name: string)

  /** `programsData.find(p => p.id === id)?.name || "Unknown"`. */
  function ProgramName(programs: seq<Program>, id: Id): (r: string)
    ensures r != []
    ensures (forall p :: p in programs ==> p.id != id) ==> r == "Unknown"
    ensures r == "Unknown" || exists p :: p in programs && p.id == id && p.name == r
    decreases |programs|
  {
    if |programs| == 0 then "Unknown"
    else if programs[0].id == id then (if programs[0].name == [] then "Unknown" else programs[0].name)
    else ProgramName(programs[1..], id)
  }

  predicate DistinctProgramIds(programs: seq<Program>) {
    forall i, j :: 0 <= i < j < |programs| ==> programs[i].id != programs[j].id
  }

  /** With one program per id, a listed program is shown under its own
      name. */
  lemma {:induction false} ProgramNameOfListed(programs: seq<Program>, i: nat)
    requires DistinctProgramIds(programs) && i < |programs| && programs[i].name != []
    ensures ProgramName(programs, programs[i].id) == programs[i].name
    decreases |programs|
  {
    if i > 0 {
      var rest := programs[1..];
      assert programs[0].id != programs[i].id;
      assert DistinctProgramIds(rest) by {
        forall a, b | 0 <= a < b < |rest| ensures rest[a].id != rest[b].id {
          assert rest[a] == programs[a + 1] && rest[b] == programs[b + 1];
        }
      }
      assert rest[i - 1] == programs[i];
      ProgramNameOfListed(rest, i - 1);
    }
  }

  function Named(programs: seq<Program>, t: seq<ProgramCount>): (r: seq<TopProgram>)
    ensures |r| == |t|
    ensures forall i :: 0 <= i < |t| ==>
              r[i].programId == t[i].programId && r[i].count == t[i].count && r[i].name == ProgramName(programs, t[i].programId)
  {
    seq(|t|, i requires 0 <= i < |t| => TopProgram(t[i].programId, t[i].count, ProgramName(programs, t[i].programId)))
  }

  /** The ranked tally cut to its first five entries. */
  function TopEntries(ids: seq<Id>): seq<ProgramCount> {
    var sorted := SortByCount(Tally(ids));
    if |sorted| <= 5 then sorted else sorted[..5]
  }

  /** The ranked entries carry the true counts, largest first, one per
      program; a program left out has no more assignments than the last
      entry kept. */
  lemma TopEntriesFacts(ids: seq<Id>)
    ensures var top := TopEntries(ids);
            && |top| <= 5
            && (forall i :: 0 <= i < |top| ==> top[i].count == multiset(ids)[top[i].programId] && top[i].count > 0)
            && (forall i, j :: 0 <= i < j < |top| ==> top[i].count >= top[j].count)
            && DistinctIds(top)
            && (forall p :: multiset(ids)[p] > 0 && (forall i :: 0 <= i < |top| ==> top[i].programId != p)
                  ==> |top| == 5 && multiset(ids)[p] <= top[4].count)
  {
    var sorted := SortByCount(Tally(ids));
    var top := TopEntries(ids);
    RankedNonIncreasing(sorted);
    assert forall i :: 0 <= i < |top| ==> top[i] == sorted[i];
    TopEntriesCounts(ids);
    TopEntriesLeftOut(ids);
  }

  lemma TopEntriesCounts(ids: seq<Id>)
    ensures var top := TopEntries(ids);
            forall i :: 0 <= i < |top| ==> top[i].count == multiset(ids)[top[i].programId] && top[i].count > 0
  {
    var t := Tally(ids);
    var sorted := SortByCount(t);
    var top := TopEntries(ids);
    forall i | 0 <= i < |top| ensures top[i].count == multiset(ids)[top[i].programId] && top[i].count > 0 {
      assert top[i] == sorted[i];
      assert sorted[i] in t;
      var k :| 0 <= k < |t| && t[k] == sorted[i];
      CountOfEntry(t, k);
    }
  }

  lemma TopEntriesLeftOut(ids: seq<Id>)
    ensures var top := TopEntries(ids);
            forall p :: multiset(ids)[p] > 0 && (forall i :: 0 <= i < |top| ==> top[i].programId != p)
              ==> |top| == 5 && multiset(ids)[p] <= top[4].count
  {
    var t := Tally(ids);
    var sorted := SortByCount(t);
    var top := TopEntries(ids);
    RankedNonIncreasing(sorted);
    forall p | multiset(ids)[p] > 0 && (forall i :: 0 <= i < |top| ==> top[i].programId != p)
      ensures |top| == 5 && multiset(ids)[p] <= top[4].count
    {
      var k := EntryOf(t, p);
      assert t[k] in sorted;
      var m :| 0 <= m < |sorted| && sorted[m] == t[k];
      CountOfEntry(t, k);
      assert forall i :: 0 <= i < |top| ==> top[i] == sorted[i];
      assert m >= |top|;
      assert top[4] == sorted[4];
    }
  }

  /** A program that occurs has an entry in the tally. */
  lemma EntryOf(t: seq<ProgramCount>, p: Id) returns (k: nat)
    requires CountOf(t, p) > 0
    ensures k < |t| && t[k].programId == p && t[k].count == CountOf(t, p)
    decreases |t|
  {
    if t[0].programId == p {
      k := 0;
    } else {
      var k' := EntryOf(t[1..], p);
      k := k' + 1;
    }
  }

  /** The five programs with the most active assignments, named. */
  function TopPrograms(ids: seq<Id>, programs: seq<Program>): (r: seq<TopProgram>)
    ensures |r| <= 5
    ensures forall i :: 0 <= i < |r| ==> r[i].count == multiset(ids)[r[i].programId] && r[i].count > 0
    ensures forall i, j :: 0 <= i < j < |r| ==> r[i].count >= r[j].count
    ensures forall i, j :: 0 <= i < j < |r| ==> r[i].programId != r[j].programId
    ensures forall p :: multiset(ids)[p] > 0 && (forall i :: 0 <= i < |r| ==> r[i].programId != p)
              ==> |r| == 5 && multiset(ids)[p] <= r[4].count
    ensures forall i :: 0 <= i < |r| ==> r[i].name == ProgramName(programs, r[i].programId)
  {
    TopEntriesFacts(ids);
    Named(programs, TopEntries(ids))
  }

  // ---------------------------------------------------------------------
  // Fee plans and challans

  /** The "active fee plans" figure: plans whose student and program are
      both active, the same plans the challan page offers for billing. */
  function ActiveFeePlans(plans: seq<FeePlan>, activeStudents: set<Id>, activePrograms: set<Id>): (n: nat)
    ensures n <= |plans|
  {
    |FeeChallans.EligiblePlans(plans, activeStudents, activePrograms)|
  }

  /** The figure, plan by plan: no plans count 0, and one more plan counts
      exactly when its student and its program are both active. */
  lemma ActiveFeePlansByPlan(plans: seq<FeePlan>, p: FeePlan, activeStudents: set<Id>, activePrograms: set<Id>)
    ensures ActiveFeePlans([], activeStudents, activePrograms) == 0
    ensures ActiveFeePlans(plans + [p], activeStudents, activePrograms)
            == ActiveFeePlans(plans, activeStudents, activePrograms)
               + (if p.studentId in activeStudents && p.programId in activePrograms then 1 else 0)
  {
    CountSnoc(plans, p, FeeChallans.EligibleIn(activeStudents, activePrograms));
  }

  function StatusIs(s: ChallanStatus): Challan -> bool {
    (c: Challan) => c.status == s
  }

  function AwaitingPayment(): Challan -> bool {
    (c: Challan) => c.status == Pending || c.status == PartiallyPaid
  }

  datatype ChallanCounts = ChallanCounts(pending: nat, paid: nat, overdue: nat)

  /** The challan cards: pending counts partly paid challans too; overdue
      and cancelled are counted apart. */
  function CountChallans(cs: seq<Challan>): (r: ChallanCounts)
    ensures r.pending + r.paid + r.overdue + Count(cs, StatusIs(Cancelled)) == |cs|
  {
    ChallanStatusesPartition(cs);
    ChallanCounts(Count(cs, AwaitingPayment()), Count(cs, StatusIs(Paid)), Count(cs, StatusIs(Overdue)))
  }

  /** The challan cards, challan by challan: no challans count nothing,
      and one more challan raises exactly the card of its status (pending
      for a partly paid one, none for a cancelled one). */
  lemma CountChallansByChallan(cs: seq<Challan>, c: Challan)
    ensures CountChallans([]) == ChallanCounts(0, 0, 0)
    ensures var r := CountChallans(cs);
            var r' := CountChallans(cs + [c]);
            && r'.pending == r.pending + (if c.status == Pending || c.status == PartiallyPaid then 1 else 0)
            && r'.paid == r.paid + (if c.status == Paid then 1 else 0)
            && r'.overdue == r.overdue + (if c.status == Overdue then 1 else 0)
  {
    CountSnoc(cs, c, AwaitingPayment());
    CountSnoc(cs, c, StatusIs(Paid));
    CountSnoc(cs, c, StatusIs(Overdue));
  }

  lemma {:induction false} ChallanStatusesPartition(cs: seq<Challan>)
    ensures Count(cs, AwaitingPayment()) + Count(cs, StatusIs(Paid)) + Count(cs, StatusIs(Overdue))
            + Count(cs, StatusIs(Cancelled)) == |cs|
    decreases |cs|
  {
    if |cs| > 0 {
      ChallanStatusesPartition(cs[1..]);
      CountCons(cs, AwaitingPayment());
      CountCons(cs, StatusIs(Paid));
      CountCons(cs, StatusIs(Overdue));
      CountCons(cs, StatusIs(Cancelled));
      var s := cs[0].status;
      assert AwaitingPayment()(cs[0]) == (s == Pending || s == PartiallyPaid);
      assert StatusIs(Paid)(cs[0]) == (s == Paid);
      assert StatusIs(Overdue)(cs[0]) == (s == Overdue);
      assert StatusIs(Cancelled)(cs[0]) == (s == Cancelled);
    }
  }

  /** The collection page's pending list is the dashboard's pending and
      overdue challans together. */
  lemma {:induction false} PendingListIsPendingPlusOverdue(cs: seq<Challan>)
    ensures |PendingChallans(cs)| == CountChallans(cs).pending + CountChallans(cs).overdue
    decreases |cs|
  {
    if |cs| > 0 {
      PendingListIsPendingPlusOverdue(cs[1..]);
      CountCons(cs, IsOutstanding);
      CountCons(cs, AwaitingPayment());
      CountCons(cs, StatusIs(Overdue));
      var s := cs[0].status;
      assert AwaitingPayment()(cs[0]) == (s == Pending || s == PartiallyPaid);
      assert StatusIs(Overdue)(cs[0]) == (s == Overdue);
    }
  }

  function ChallanAmount(c: Challan): real {
    c.amount
  }

  /** `totalAmount`: everything billed. */
  function TotalAmount(cs: seq<Challan>): real {
    SumOf(cs, ChallanAmount)
  }

  /** `pendingAmount = totalAmount - paidAmount`. */
  function PendingAmount(cs: seq<Challan>): real {
    TotalAmount(cs) - TotalPaid(cs)
  }

  /** The pending amount is the sum of every challan's balance, whatever
      its status. */
  lemma PendingAmountIsBalances(cs: seq<Challan>)
    ensures PendingAmount(cs) == SumOf(cs, Balance)
  {
    SumOfDifference(cs, ChallanAmount, PaidOf, Balance);
  }

  function Everything(): Challan -> bool {
    (c: Challan) => true
  }

  /** In a consistent ledger the dashboard's pending amount is never below
      the collection page's total pending: it also counts the balances of
      cancelled challans. */
  lemma PendingAmountCoversPendingList(l: Ledger)
    requires Consistent(l)
    ensures 0.0 <= TotalPending(l.challans) <= PendingAmount(l.challans)
  {
    var cs := l.challans;
    forall i | 0 <= i < |cs| ensures Balance(cs[i]) >= 0.0 {
      assert Settled(cs[i], l.payments);
    }
    SumOfFilterMonotone(cs, Everything(), IsOutstanding, Balance);
    FilterAll(cs, Everything());
    PendingAmountIsBalances(cs);
    TotalPendingBounds(l);
  }
}
