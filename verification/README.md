# GrowMoreAMS core, modelled in Dafny

GrowMoreAMS is an academy-management web application. This project models the
business logic of its pages as pure functions over immutable data. The state
each page works on (the loaded students, programs, schedules, assignments,
attendance records, fee plans, challans and payments) becomes a value, and each
handler becomes a function from that value and the form's fields to a result.
The `Result` carries the error the page would show. Properties of those
functions are proved.

The modules follow the pages:

- `FeeCollection` (fee-collection page): recording and deleting payments on
  a challan (a fee bill); the pending and paid lists; the totals. A ledger
  of challans and payments is `Consistent` when:
  - every challan's paid amount is the sum of its payments;
  - that amount lies between 0 and the challan amount;
  - the status agrees with it.

  Recording and deleting a payment keep a ledger consistent.
- `FeeChallans` (fee-challans page):
  - the `CH-<year><month>-<suffix>` challan number;
  - the eligible plans;
  - plan selection;
  - bulk generation;
  - editing a challan;
  - deleting a challan.
- `FeePlans` (fee-plans page): the discount calculator that keeps amount,
  percent and fee after discount in step; choosing a program; the save checks.
- `AttendanceReport` (attendance report page):
  - the student-by-day code matrix;
  - working days;
  - the average percentage;
  - the absent summary row;
  - the search.
- `AttendanceMark` (attendance marking page):
  - merging saved records into the rows;
  - per-row and bulk status changes;
  - row selection;
  - counts;
  - the records a save writes.
- `Dashboard` (home page):
  - today/week/month attendance statistics;
  - the top-five program ranking;
  - fee-plan and challan counts;
  - amounts.
- `Schedules` (schedules page): day names, the save checks, the program
  filter.
- `AssignPrograms` (program-assignment page):
  - the student search;
  - name and schedule labels;
  - the list filters;
  - the duplicate-enrolment guard.
- `Students` (students list): the search; the edit dialog's digit-only
  mobile inputs; the edit flow from the row menu to Save. As written, that
  flow never saves (see "## Findings"). The model states the intended save,
  and the row it would write, beside the flow as written.
- `Admission` (admission form): the required-name checks; the inserted row.
- `Programs` (programs page): the upper-casing code input; the dialog's
  round trip; the written row.

The supporting modules hold shared definitions:

- `Wrappers`: `Option`, `Result`.
- `Domain`: the database rows.
- `Seqs`: filter, count, sums.
- `Text`: ASCII casing, trim over JavaScript's whitespace set, substring search, digit strings.
- `Numbers`: `Math.round`, rounding to hundredths.

Modelling conventions:

- Money is an exact `real`.
- `Math.round(x)` is `floor(x + 1/2)`.
- JavaScript's `x || 0` and `s || null` are written out:
  - as `GetOr` and `OrNull` on optional values;
  - as `Domain.ChosenId` for ids, where the falsy id 0 counts as "not chosen".
- Calendar facts are parameters. These are the days of the month, which days
  are Sundays, and the current year and month.
- The random four-digit challan suffix is a parameter too.
- Database writes are modelled by the row they write. Where the page reloads
  afterwards, they are also modelled by the state the reload would show.

The fee-plan calculator (app/fee-plans/page.tsx:325-330) clamps the discount
amount and the fee after discount at zero, but only rounds the percent.
`FeePlans.OverDiscountKeepsPercent` shows the consequence.

## Model

| member | source | states |
|---|---|---|
| FeeCollection.DeriveStatus | app/fee-collection/page.tsx:248-253 | the status is paid exactly when the new paid amount reaches the amount; partially paid exactly when it is strictly between 0 and the amount; pending otherwise |
| FeeCollection.FindChallan | app/fee-collection/page.tsx:380-381 | finds a loaded challan with the payment's challan id, and finds none only when no loaded challan has that id |
| FeeCollection.RecordPayment | app/fee-collection/page.tsx:225-300 | refuses:<br>- a missing challan;<br>- an amount ≤ 0;<br>- an amount above the remaining balance, with the balance in the error.<br><br>Otherwise it succeeds. The challan's paid amount grows by the payment and its status is re-derived. The payment is appended with the form's fields and empty texts as null |
| FeeCollection.RecordPaymentPreservesConsistency | app/fee-collection/page.tsx:225-300 | an accepted payment on a consistent ledger leaves it consistent. Every paid amount still equals the sum of its payments, within 0..amount, with an agreeing status |
| FeeCollection.DeletePayment | app/fee-collection/page.tsx:366-414 | removes exactly the selected payment. The owning challan's paid amount becomes the sum of its other payments, with the status re-derived. Other challans are unchanged |
| FeeCollection.PaidForIsFilterSum | app/fee-collection/page.tsx:382-391 | summing a challan's payments one by one agrees with the page's filter-then-reduce over the payment list |
| FeeCollection.PaidForAfterDelete | app/fee-collection/page.tsx:382-391 | the recomputed paid amount equals what the reloaded payments for that challan sum to |
| FeeCollection.DeletePaymentPreservesConsistency | app/fee-collection/page.tsx:366-414 | deleting any payment of a consistent ledger leaves it consistent |
| FeeCollection.CapTypedAmount | app/fee-collection/page.tsx:893-897 | the amount input never holds more than the remaining balance: it keeps the typed value or the balance |
| FeeCollection.DefaultPaymentSettles | app/fee-collection/page.tsx:199-211 | recording the dialog's default amount (the remaining balance) is accepted and marks the challan fully paid |
| FeeCollection.CappedAmountNeverExceeds | app/fee-collection/page.tsx:236-243 | an amount that went through the input cap is never refused for exceeding the balance |
| FeeCollection.ListsPartitionLedger | app/fee-collection/page.tsx:417-424 | on a consistent ledger, a challan that is not cancelled is in exactly one of the pending and paid lists |
| FeeCollection.TotalPendingBounds | app/fee-collection/page.tsx:425-428 | the pending total is non-negative and at most the sum of the pending challans' amounts |
| FeeCollection.PaymentWalkthrough | app/fee-collection/page.tsx:225-414 | on a 1000 challan: paying 400 gives partially paid; then 600 gives paid; a further 1 is refused with a balance of 0; deleting the 400 payment returns it to 600, partially paid |
| FeeChallans.ChallanNumber | app/fee-challans/page.tsx:199-204 | the number starts with `CH-`, has year, two-digit month, `-` and a four-digit suffix, and is all digits between the separators |
| FeeChallans.ChallanNumberRoundTrip | app/fee-challans/page.tsx:199-204 | parsing a generated number gives back its year, month and suffix |
| FeeChallans.ChallanNumberInjective | app/fee-challans/page.tsx:199-204 | in one month, different suffixes give different numbers |
| FeeChallans.EligiblePlans | app/fee-challans/page.tsx:106-108 | keeps, in order, exactly the plans whose student and program are both active |
| FeeChallans.TogglePlan | app/fee-challans/page.tsx:206-216 | toggling a plan flips its membership in the selection and leaves every other plan's unchanged |
| FeeChallans.SelectAllPlansToggles | app/fee-challans/page.tsx:218-224 | select-all clears a full selection and otherwise selects every listed plan |
| FeeChallans.ChallansFor | app/fee-challans/page.tsx:239-252 | one challan per selected plan, in list order, each billing that plan's fee after discount with the form's dates and a pending status, and numbered `CH-` with that plan's own random draw |
| FeeChallans.GenerateChallans | app/fee-challans/page.tsx:226-271 | refuses an empty selection; otherwise it gives one new challan per selected plan, billing that plan and numbered with its draw |
| FeeChallans.GeneratedNumbersReadBack | app/fee-challans/page.tsx:239-246 | each generated challan's number reads back as this year and month with its plan's draw; two generated challans share a number only when their draws are equal |
| FeeChallans.FreshChallanUnpaid | app/fee-challans/page.tsx:240-252 | in a consistent ledger no payment points at an unused challan id, so a new challan starts with nothing paid |
| FeeChallans.AddGeneratedPreservesConsistency | app/fee-challans/page.tsx:240-252 | adding a generated challan under a fresh id keeps a consistent ledger consistent |
| FeeChallans.UpdateChallan | app/fee-challans/page.tsx:299-333 | refuses a missing challan or an amount ≤ 0. Otherwise it rewrites the edited fields of exactly that challan and leaves its paid amount and status alone |
| FeeChallans.UpdateCanPushPaidAboveAmount | app/fee-challans/page.tsx:305-321 | lowering a challan's amount below what was already paid is accepted and leaves paid above amount |
| FeeChallans.UpdateCanHidePaidChallan | app/fee-challans/page.tsx:305-321 | raising a fully paid challan's amount is accepted and keeps the challan marked paid although a balance remains |
| FeeChallans.DeleteChallan | app/fee-challans/page.tsx:345-372 | deletes the challan exactly when it has no payments, removing only that challan and touching no payment |
| FeeChallans.DeleteChallanPreservesConsistency | app/fee-challans/page.tsx:345-372 | a permitted delete keeps a consistent ledger consistent |
| FeePlans.ChangeDiscount | app/fee-plans/page.tsx:305-331 | the edited field takes the typed value. A percent gives that share of the fee as the amount and the rest as the fee after discount; an amount or a fee after discount gives the other as the rest of the fee and the percent as the amount's share. The amounts are clamped at 0, the percent is rounded to hundredths, and the fee and the texts are kept |
| FeePlans.DiscountSplitsFee | app/fee-plans/page.tsx:305-331 | for a discount within the fee, whichever field is edited, the discount amount plus the fee after discount equals the actual fee |
| FeePlans.DiscountPercentInRange | app/fee-plans/page.tsx:305-331 | whichever field is edited, a discount within the fee keeps the fields in step: the percent lies in 0..100, within half a hundredth of the amount's share of the fee |
| FeePlans.OverDiscountKeepsPercent | app/fee-plans/page.tsx:325-330 | a discount above the fee stores fee after discount 0 but a percent of at least 100, and 200 from twice the fee, so the fields disagree |
| FeePlans.TenPercentOfFiveThousand | app/fee-plans/page.tsx:305-331 | ten percent of 5000 gives a discount of 500 and 4500 to pay |
| FeePlans.SelectProgram | app/fee-plans/page.tsx:239-262 | a program with a fee sets the actual fee and re-derives the rest from the entered discount. A program with no fee zeroes all four amounts. No program changes nothing |
| FeePlans.SelectProgramRederives | app/fee-plans/page.tsx:239-262 | choosing a priced program gives the same form as re-entering the discount amount against the new fee |
| FeePlans.SavePlan | app/fee-plans/page.tsx:333-392 | saves exactly when a student and a program are chosen and the fee is positive. The figures are saved as they stand, with empty texts as null |
| FeePlans.SaveNeedsProgramFee | app/fee-plans/page.tsx:239-262 | after choosing a program, the save succeeds if the program's fee is positive and is refused for a missing fee otherwise |
| AttendanceReport.CodeInjective | app/attendance/report/page.tsx:216-230 | distinct statuses have distinct one-letter codes, and none is the empty-cell code |
| AttendanceReport.LastCode | app/attendance/report/page.tsx:216-230 | a cell is empty exactly when no record is for that student and day; otherwise it is the code of the last such record |
| AttendanceReport.EnterKeepsLastCode | app/attendance/report/page.tsx:216-230 | entering records one by one into the nested map keeps every lookup equal to the last matching record's code |
| AttendanceReport.BuildMatrix | app/attendance/report/page.tsx:216-234 | the loop over records builds exactly the specified matrix: one row per student and one cell per day |
| AttendanceReport.WorkingDays | app/attendance/report/page.tsx:238-246 | a day is a working day exactly when some record falls on it and it is not a Sunday |
| AttendanceReport.WorkingDaysBound | app/attendance/report/page.tsx:238-246 | there are at most as many working days as days in the month |
| AttendanceReport.AttendedDays | app/attendance/report/page.tsx:249-257 | a student's attended days are the working days whose cell is present or late |
| AttendanceReport.AverageAttendance | app/attendance/report/page.tsx:249-257 | 0 when there are no students or no working days; otherwise the rounded percentage of attended cells |
| AttendanceReport.AverageAttendanceInRange | app/attendance/report/page.tsx:249-257 | the average is a percentage between 0 and 100 |
| AttendanceReport.FindStudent | app/attendance/report/page.tsx:773 | gives the first index holding the id, or -1 when none does |
| AttendanceReport.AbsentSummary | app/attendance/report/page.tsx:750-790 | shows nothing on a Sunday; otherwise a count no larger than the number of shown students |
| AttendanceReport.MissedCountFromRecords | app/attendance/report/page.tsx:771-778 | the count equals the number of shown students whose last record that day is absent or excused |
| AttendanceReport.SearchReport | app/attendance/report/page.tsx:284-291 | keeps, in order, exactly the students whose name or father's name contains the query, ignoring case, or whose phone contains it |
| AttendanceReport.SearchReportEmpty | app/attendance/report/page.tsx:284-291 | an empty query keeps every student |
| AttendanceMark.LastRecordFor | app/attendance/mark/page.tsx:240-246 | the map keeps the last loaded record of each student; none exactly when the student has no record |
| AttendanceMark.MergeExisting | app/attendance/mark/page.tsx:238-269 | every row keeps its student. A student with a saved record gets the last record's status and remarks (empty when none); any other student gets present with no remarks. The selection is the recorded students, or every student when nothing was saved |
| AttendanceMark.MergeSelectsSaved | app/attendance/mark/page.tsx:260 | after the merge, a student is selected exactly when the day has no records or the student has one |
| AttendanceMark.MergeAgreesWithReport | app/attendance/mark/page.tsx:238-260 | the merged status of a student shows the same code the report's cell shows for that day |
| AttendanceMark.SetStatus | app/attendance/mark/page.tsx:322-327 | changes the status of the rows of that student only |
| AttendanceMark.SetRemarks | app/attendance/mark/page.tsx:329-334 | changes the remarks of the rows of that student only |
| AttendanceMark.MarkAll | app/attendance/mark/page.tsx:354-360 | selected rows get the status, the others are unchanged, and nothing else changes |
| AttendanceMark.MarkAllIdempotent | app/attendance/mark/page.tsx:354-360 | marking all twice is marking all once |
| AttendanceMark.RowSelect | app/attendance/mark/page.tsx:336-342 | toggling a row flips its selection and leaves every other row's |
| AttendanceMark.RowSelectTwice | app/attendance/mark/page.tsx:336-342 | toggling a row twice restores the selection |
| AttendanceMark.SelectAllRows | app/attendance/mark/page.tsx:345-351 | clears the selection when it is as long as the shown list, otherwise selects exactly the shown students |
| AttendanceMark.SearchRows | app/attendance/mark/page.tsx:307-312 | keeps, in order, exactly the rows whose student matches the report's search |
| AttendanceMark.StatusCountsBound | app/attendance/mark/page.tsx:315-319 | the four status counts add up to at most the number of rows, and to exactly that number iff every row has a status |
| AttendanceMark.BuildSaveRecords | app/attendance/mark/page.tsx:363-388 | refuses an empty selection; otherwise it writes one record per selected row, in order, with that row's status and remarks |
| AttendanceMark.SavedStudentsAreSelected | app/attendance/mark/page.tsx:377-388 | a row's student is saved exactly when the row is selected |
| Dashboard.TodayStats | app/page.tsx:243-252 | the four counts partition the day's records, and the percentage is the rounded present share, 0 with no records |
| Dashboard.TodayStatsByRecord | app/page.tsx:243-250 | no records count nothing; one more record raises exactly the count of its own status |
| Dashboard.PeriodStatsOf | app/page.tsx:262-282 | the week/month present count is at most the total; the percentage is its rounded share of the total, in 0..100, and 0 with no records |
| Dashboard.PeriodStatsByRecord | app/page.tsx:262-282 | no records count nothing; one more record raises the total, and the present count exactly when it is present or late |
| Dashboard.PeriodPresentCountsLate | app/page.tsx:262-282 | the week/month present count includes late arrivals: it is present plus late |
| Dashboard.PeriodPercentAtLeastToday | app/page.tsx:243-282 | over the same records, the period percentage is never below the day percentage |
| Dashboard.Tally | app/page.tsx:206-209 | the per-program counts equal the multiplicities of the assigned program ids, every count is positive, and the ids are ascending |
| Dashboard.SortByCount | app/page.tsx:217-227 | the stable sort by descending count is a permutation of the tally with distinct ids, and keeps ties in ascending-id order |
| Dashboard.RankedNonIncreasing | app/page.tsx:217-227 | the sorted list's counts never increase |
| Dashboard.ProgramName | app/page.tsx:217-227 | the name is never empty; it is "Unknown" when no program has the id, and otherwise either "Unknown" or the name of a program with that id |
| Dashboard.ProgramNameOfListed | app/page.tsx:217-227 | with one program per id, a listed program with a name is shown under that name |
| Dashboard.TopPrograms | app/page.tsx:217-227 | at most five entries with distinct ids, each with its true positive count, in non-increasing order. Any assigned program left out means the list is full and has no more assignments than the fifth entry |
| Dashboard.ActiveFeePlans | app/page.tsx:314-316 | the active fee plans are at most all fee plans |
| Dashboard.ActiveFeePlansByPlan | app/page.tsx:296-316 | no plans count 0; one more plan counts exactly when its student and its program are both active |
| Dashboard.CountChallans | app/page.tsx:324-326 | the pending, paid, overdue and cancelled counts add up to the number of challans |
| Dashboard.CountChallansByChallan | app/page.tsx:324-326 | no challans count nothing; one more challan raises exactly its status's card, pending for a partly paid one and none for a cancelled one |
| Dashboard.PendingListIsPendingPlusOverdue | app/page.tsx:324-326 | the fee-collection pending list has as many challans as the dashboard's pending and overdue counts together |
| Dashboard.PendingAmountIsBalances | app/page.tsx:329-331 | total minus paid is the sum of every challan's balance |
| Dashboard.PendingAmountCoversPendingList | app/page.tsx:329-331 | on a consistent ledger, the fee-collection pending total is between 0 and the dashboard's pending amount |
| Schedules.DayName | app/schedules/page.tsx:290-292 | days 0..6 are named Sunday to Saturday; any other day is "Unknown" |
| Schedules.DayNamesDistinct | app/schedules/page.tsx:41-49 | the seven days have seven distinct names |
| Schedules.SaveSchedule | app/schedules/page.tsx:193-250 | saves exactly when a program (not the id 0) and two non-empty times are given (the Save button's guard at line 542 and the handler's check together) and the start sorts before the end. Empty optional texts are stored as null and the active flag defaults to true |
| Schedules.EmptySlotRejected | app/schedules/page.tsx:205 | a slot whose start equals its end is refused, as out of order or, for a cleared time, as missing |
| Schedules.ClearedTimeRefused | app/schedules/page.tsx:542 | a time cleared to the empty text is never saved |
| Schedules.ClockTextOrder | app/schedules/page.tsx:205 | for HH:MM times, comparing as text is comparing the times of day |
| Schedules.FilterSchedules | app/schedules/page.tsx:145-147 | no program shows everything; a program shows exactly its schedules, in order |
| AssignPrograms.FilterStudents | app/students/assign-programs/page.tsx:162-168 | keeps, in order, exactly the students matching the dialog's search |
| AssignPrograms.BlankSearchKeepsStudents | app/students/assign-programs/page.tsx:162-168 | a blank search keeps every student |
| AssignPrograms.SearchNeedsAField | app/students/assign-programs/page.tsx:162-168 | with a non-blank query, a student is found exactly when the name, phone or Form B number contains it |
| AssignPrograms.StudentName | app/students/assign-programs/page.tsx:171-173 | the label is never empty; "Unknown" for an unknown id; otherwise a name of a student with that id |
| AssignPrograms.StudentNameOfEnrolled | app/students/assign-programs/page.tsx:171-173 | with distinct ids, a student's label is that student's name |
| AssignPrograms.FilterAssignments | app/students/assign-programs/page.tsx:225-247 | keeps, in order, exactly the assignments passing the search, status and program filters |
| AssignPrograms.NoFiltersShowAll | app/students/assign-programs/page.tsx:225-247 | no search, all statuses and no program shows every assignment |
| AssignPrograms.FiltersCompose | app/students/assign-programs/page.tsx:235-245 | with a blank search, the list is the status filter followed by the program filter |
| AssignPrograms.UnsetStatusHiddenByActive | app/students/assign-programs/page.tsx:590 | an assignment without a status is listed as active but hidden by the "active" filter |
| AssignPrograms.DayLabel | app/students/assign-programs/page.tsx:216-222 | agrees with the schedules page's day names for 0..6 and is "undefined" otherwise |
| AssignPrograms.ScheduleDisplay | app/students/assign-programs/page.tsx:216-222 | nothing for no schedule or an unknown id; otherwise the slot text of a schedule with that id |
| AssignPrograms.ScheduleDisplayOfSlot | app/students/assign-programs/page.tsx:216-222 | with distinct ids, a schedule's label is its day name and times |
| AssignPrograms.AssignProgram | app/students/assign-programs/page.tsx:279-326 | refuses a missing student or program. Refuses exactly when one row already pairs them (the single-row lookup). Otherwise it appends a row with the chosen schedule, date and status |
| AssignPrograms.AssignKeepsPairsUnique | app/students/assign-programs/page.tsx:286-299 | when no pair is enrolled twice, an accepted assignment keeps it so |
| AssignPrograms.SecondDuplicateAdmitsThird | app/students/assign-programs/page.tsx:286-299 | once a pair is enrolled twice, the guard lets a third enrolment through |
| Students.SearchStudents | app/students/page.tsx:100-116 | keeps, in order, exactly the students matching the search |
| Students.BlankQueryShowsAll | app/students/page.tsx:102-105 | a blank query shows the whole list |
| Students.SearchIgnoresQueryCase | app/students/page.tsx:107-115 | a query and its lower-case form show the same students |
| Students.DigitQueryFindsPhone | app/students/page.tsx:107-115 | a digit query contained in a phone finds that student |
| Students.TypeMobile | app/students/page.tsx:785 | typing into a mobile input stores only the digits typed, in that field only |
| Students.UpdatePayload | app/students/page.tsx:223-257 | the saved row keeps the name as is, writes empty texts as null and an unset status as active |
| Students.SaveUnchangedRoundTrip | app/students/page.tsx:137-148 | opening a normalised student and saving without edits writes it back unchanged |
| Students.UpdatePayloadIdempotent | app/students/page.tsx:223-257 | saving a saved row changes nothing |
| Students.TypedMobilesSaveAsDigits | app/students/page.tsx:785 | mobiles entered through the inputs are saved as digits or null |
| Students.ClearedNameNotSaved | app/students/page.tsx:945 | the Save button is disabled while the name is empty, so a cleared name is never saved; a name of blanks is saved as typed |
| Students.ApplyUpdate | app/students/page.tsx:262 | the row replaces every student with its id and keeps the others |
| Students.EditAsWritten | app/students/page.tsx:123-149 | `handleEdit` as written fills the form from the selection and then clears the selection |
| Students.EditAsWrittenNeverSaves | app/students/page.tsx:123-201 | as written, opening any student, typing anything and clicking Save leaves the list unchanged |
| Students.Edit | app/students/page.tsx:137-147 | `handleEdit` as intended: fills the form from the selection and keeps the selection |
| Students.SaveEdit | app/students/page.tsx:200-264 | nothing is written while the button is disabled or nothing is selected; otherwise the selected student's row becomes the form's payload |
| Students.EditSaves | app/students/page.tsx:200-264 | with the selection kept, an edit with a name is saved: the student appears under its id with the saved fields, and no other row changes |
| Students.UpdateIsVisible | app/students/page.tsx:262 | once an update is written, the edited student appears under its id with the saved fields (reached by the intended edit flow only) |
| Admission.TypeMobile | app/students/admission/page.tsx:480 | typing into a mobile input keeps only the digits, in that field only |
| Admission.Admit | app/students/admission/page.tsx:223-315 | refuses a blank name, then a blank father's name. Otherwise it inserts the untrimmed texts, empty ones as null, with status active |
| Admission.BlankNameRefused | app/students/admission/page.tsx:231-234 | a name of spaces is refused |
| Admission.AdmittedRowIsSaved | app/students/admission/page.tsx:265-300 | the inserted row is already in the form the students page saves |
| Admission.AdmittedMobilesAreDigits | app/students/admission/page.tsx:480 | mobiles typed through the inputs are inserted as digits or null |
| Admission.AdmittedFoundByName | app/students/admission/page.tsx:265-300 | a new student is found on the students page by searching for the typed name |
| Programs.TypeCode | app/programs/page.tsx:363 | the code input holds the typed code upper-cased and changes nothing else |
| Programs.RetypeCodeUnchanged | app/programs/page.tsx:363 | retyping the shown code leaves the form unchanged |
| Programs.OpenDialog | app/programs/page.tsx:93-118 | shows the program's fields, a missing description as empty and a missing unit as years |
| Programs.SubmitProgram | app/programs/page.tsx:135-190 | refuses an empty name or code (untrimmed). Otherwise it writes 0 and empty values as null and an unset status as active |
| Programs.EditRoundTrip | app/programs/page.tsx:93-161 | opening a normalised program and submitting without edits writes it back unchanged |
| Programs.SubmittedIsNormalised | app/programs/page.tsx:152-181 | every written row is normalised, so the round trip holds from then on |
| Programs.BlankNameAccepted | app/programs/page.tsx:140-143 | a name of spaces is accepted as present |
| Programs.ZeroFeeBlocksPlans | app/programs/page.tsx:152-161 | a fee of 0 is stored as no fee, and such a program blocks saving a fee plan for it |

## Left out

- Database access (Supabase queries, the academy filter on every query), authentication, notifications and rendering. Each handler is modelled by the rows it writes and the state it leaves; the loading queries are replaced by their results.
- Failure of a database call half way through a handler is not modelled. Examples are the challan update succeeding and the payment insert failing, or a bulk insert failing. The page's writes are not atomic, and the model treats a handler's writes as one step.
- Concurrent sessions are not modelled: two users acting on stale copies of the same challan are outside the model.
- Floating-point arithmetic, `toFixed`, `NaN` from empty number inputs and number parsing of text inputs. Amounts are exact reals and number inputs are already numbers.
- Dates, the clock and `Math.random` are parameters: the days of the month, which are Sundays, the current year and month, and the challan suffix.
- Non-ASCII case mapping and UTF-16 detail. Casing is modelled on ASCII letters only; trimming removes JavaScript's full whitespace and line-terminator set.
- Deleting attendance for a day (app/attendance/mark/page.tsx:428): a plain delete with no logic beyond the query.
- Deleting a fee plan or a program, removing an assignment and changing an assignment's status: each is a single database call with a confirmation.
- The student picture upload, the `maxLength` limits on inputs and the student columns the forms do not show.
- The dashboard's `thisMonthPaymentsTotal` (app/page.tsx:341): a sum over a date-filtered query whose date filter lies outside the model.
- FeePlans.OverDiscountKeepsPercent: states the disagreement for discounts above the fee, not the exact percent stored.
- FeeChallans.AddGeneratedPreservesConsistency: assumes the plan's fee after discount is positive. A zero-fee plan gives a challan of amount 0 whose pending status does not agree with the status rule.
- Schedules.ClockTextOrder: proved for `HH:MM` texts only. Times come from a time input that produces that form; for other texts the page compares strings, and the model keeps that comparison in Schedules.SaveSchedule.

## Findings

| source | as written | input that shows it | evidently intended | confidence | as-written member | corrected member |
|---|---|---|---|---|---|---|
| app/students/page.tsx:148 | `handleEdit` ends with `handleMenuClose()`, which sets `selectedStudent` to null (line 126). `handleSaveEdit` then returns at line 201 because nothing is selected, so no update is ever written | open any student from its row menu with Edit, change a field, click Save Changes: the list is unchanged | the edit dialog saves the opened student: the selection is kept, or only the menu anchor is cleared | high; not executed | Students.EditAsWrittenNeverSaves | Students.EditSaves |
