/** The three status rewrites of the employee table: the nightly
    `mark_working_status` task of apps/main/tasks.py, which dismisses every
    employee with an ended employment period in one bulk update and logs the
    change itself, and the `mark_status` and `change_color` management
    commands, which assign a status to every employee and save each one
    through the audited save path. */
module StatusBatch {

  import opened Outcomes
  import opened Dates
  import opened Text
  import opened Seqs
  import opened Entities
  import opened Db
  import opened Notices
  import opened Cache
  import opened ChangeUser
  import opened Audit
  import opened Saves

  // ------------------------------------------------------- the status row

  /** `_prepare_value(working_status)`: None as "", text stripped. */
  function StatusText(s: Option<string>): (t: string)
  {
    match s
    case None => ""
    case Some(x) => Strip(x)
  }

  /** An "updated" History row of an employee's `working_status` field. */
  function StatusRow(id: Id, older: string, newer: string, user: Option<UserId>, now: Timestamp): HistoryEntry {
    HistoryEntry(EmployeeModel, id, "working_status", Some(older), Some(newer), Some(Updated), user, now)
  }

  /** What the audited save logs when only the status of `e` is reassigned:
      one status row when the normalised value moves, nothing otherwise. */
  function StatusChange(e: Employee, status: Option<string>, user: Option<UserId>, now: Timestamp): seq<HistoryEntry> {
    if Moves(e, status) then [MoveRow(e, status, user, now)] else []
  }

  /** Reassigning `status` to `e` changes the stored, normalised text. */
  predicate Moves(e: Employee, status: Option<string>) {
    StatusText(e.workingStatus) != StatusText(status)
  }

  /** The status row of reassigning `status` to `e`. */
  function MoveRow(e: Employee, status: Option<string>, user: Option<UserId>, now: Timestamp): HistoryEntry {
    StatusRow(e.id, StatusText(e.workingStatus), StatusText(status), user, now)
  }

  /** The stored text of a status is the audited save's rendering of it. */
  lemma StatusTextPrepared(s: Option<string>)
    ensures StatusText(s) == PrepareValue(OptText(s))
  {
  }

  /** The field-by-field diff of a save that changes only the status is the
      single status row, or nothing when the normalised value is the same. */

  lemma StatusOnlyDiff(e: Employee, status: Option<string>, user: Option<UserId>, now: Timestamp)
    requires OptValid(e.studentEndDate)
    ensures EmployeeDiff(e, e.(workingStatus := status), user, now) == StatusChange(e, status, user, now)
  {
    var f := e.(workingStatus := status);
    StatusTextPrepared(e.workingStatus);
    StatusTextPrepared(status);
    EmployeeFieldsAlign(e, f);
    EmployeeFieldsStatus(e, status);
    var older := EmployeeFields(e);
    DiffOnlyAt(EmployeeModel, e.id, older, EmployeeFields(f), user, now, 9);
    assert UpdatedRow(EmployeeModel, e.id, StatusField(e.workingStatus), StatusField(status), user, now)
        == StatusRow(e.id, StatusText(e.workingStatus), StatusText(status), user, now);
  }

  // ------------------------------------------------ mark_working_status

  /** `EmploymentPeriod.objects.filter(end_date__isnull=False, end_date__lt=today)`
      holds a period of employee `id`: any period, not only the latest. */
  predicate HasEndedPeriod(periods: seq<EmploymentPeriod>, id: Id, today: Date) {
    exists p :: p in periods && p.employee == id && p.endDate.Some? && Before(p.endDate.value, today)
  }

  /** `Employee.objects.filter(id__in=...).exclude(working_status="Zwolniony")`;
      the exclusion keeps a null status. */
  predicate DueForDismissal(e: Employee, periods: seq<EmploymentPeriod>, today: Date) {
    HasEndedPeriod(periods, e.id, today) && !IsDismissed(e)
  }

  /** `employees_to_update`, in table order. */
  function SelectedForDismissal(employees: seq<Employee>, periods: seq<EmploymentPeriod>, today: Date): (r: seq<Employee>)
    ensures forall e :: e in r <==> e in employees && DueForDismissal(e, periods, today)
  {
    Filter(employees, (e: Employee) => DueForDismissal(e, periods, today))
  }

  /** The employee table after `employees_to_update.update(working_status="Zwolniony")`:
      a bulk update, so no save, no diff, no receiver and no `updated_at`. */
  function AfterDismissal(employees: seq<Employee>, periods: seq<EmploymentPeriod>, today: Date): (r: seq<Employee>)
    ensures |r| == |employees|
    ensures forall k :: 0 <= k < |r| ==> r[k] == employees[k].(workingStatus := r[k].workingStatus)
    ensures forall k :: 0 <= k < |r| ==> (HasEndedPeriod(periods, employees[k].id, today) ==> IsDismissed(r[k]))
    ensures forall k :: 0 <= k < |r| ==> (!HasEndedPeriod(periods, employees[k].id, today) ==> r[k] == employees[k])
  {
    seq(|employees|, k requires 0 <= k < |employees| =>
      if DueForDismissal(employees[k], periods, today) then employees[k].(workingStatus := Some(Dismissed)) else employees[k])
  }

  /** The bulk-created History rows: one per selected employee, in order,
      each from that employee's own prior status. */
  function DismissalRows(selected: seq<Employee>, user: UserId, now: Timestamp): (rows: seq<HistoryEntry>)
    ensures |rows| == |selected|
    ensures forall k :: 0 <= k < |rows| ==>
      rows[k] == StatusRow(selected[k].id, StatusText(selected[k].workingStatus), Dismissed, Some(user), now)
  {
    seq(|selected|, k requires 0 <= k < |selected| =>
      StatusRow(selected[k].id, StatusText(selected[k].workingStatus), Dismissed, Some(user), now))
  }

  /** The loop that fills `employees_data`: each selected employee's key and
      normalised prior status, in order. */
  method PriorStatuses(selected: seq<Employee>) returns (data: seq<(Id, string)>)
    ensures |data| == |selected|
    ensures forall k :: 0 <= k < |data| ==> data[k] == (selected[k].id, StatusText(selected[k].workingStatus))
  {
    data := [];
    var i := 0;
    while i < |selected|
      invariant 0 <= i <= |selected| && |data| == i
      invariant forall k :: 0 <= k < i ==> data[k] == (selected[k].id, StatusText(selected[k].workingStatus))
    {
      data := data + [(selected[i].id, StatusText(selected[i].workingStatus))];
      i := i + 1;
    }
  }

  /** `employees_to_update.update(working_status="Zwolniony")`. */
  method BulkDismiss(db: Database, today: Date)
    requires db.Valid()
    modifies db`employees
    ensures db.Valid()
    ensures db.employees == AfterDismissal(old(db.employees), db.periods, today)
  {
    var updated := AfterDismissal(db.employees, db.periods, today);
    db.ReplaceEmployees(updated);
  }

  /** `History.objects.bulk_create(rows)`. */
  method BulkCreateHistory(db: Database, rows: seq<HistoryEntry>)
    modifies db`history
    ensures db.Valid() == old(db.Valid())
    ensures db.history == old(db.history) + rows
  {
    db.history := db.history + rows;
  }

  /** `mark_working_status()`. `users` are the keys of the user table: the
      task logs as user 1, and `User.objects.get(id=1)` runs after the bulk
      update even when nothing was selected, so a missing user 1 raises
      `DoesNotExist` with the statuses already rewritten and nothing logged. */
  method MarkWorkingStatus(db: Database, users: set<UserId>, today: Date, now: Timestamp) returns (r: Result<(), string>)
    requires db.Valid()
    modifies db`employees, db`history
    ensures db.Valid()
    ensures db.employees == AfterDismissal(old(db.employees), old(db.periods), today)
    ensures 1 !in users ==> r == Err("DoesNotExist") && db.history == old(db.history)
    ensures 1 in users ==>
      r == Ok(()) &&
      db.history == old(db.history) + DismissalRows(SelectedForDismissal(old(db.employees), old(db.periods), today), 1, now)
  {
    var selected := SelectedForDismissal(db.employees, db.periods, today);
    var data := PriorStatuses(selected);
    BulkDismiss(db, today);
    if 1 !in users {
      return Err("DoesNotExist");
    }
    if |data| > 0 {
      var rows := seq(|data|, k requires 0 <= k < |data| => StatusRow(data[k].0, data[k].1, Dismissed, Some(1), now));
      assert rows == DismissalRows(selected, 1, now);
      BulkCreateHistory(db, rows);
    } else {
      assert DismissalRows(selected, 1, now) == [];
    }
    return Ok(());
  }

  /** A second run on the same day selects nothing, logs nothing and
      rewrites nothing: every employee with an ended period is already
      dismissed. */
  lemma DismissalIdempotent(employees: seq<Employee>, periods: seq<EmploymentPeriod>, today: Date, now: Timestamp)
    ensures var after := AfterDismissal(employees, periods, today);
      SelectedForDismissal(after, periods, today) == []
      && DismissalRows(SelectedForDismissal(after, periods, today), 1, now) == []
      && AfterDismissal(after, periods, today) == after
  {
    var after := AfterDismissal(employees, periods, today);
    forall e | e in after ensures !DueForDismissal(e, periods, today) {
      var k :| 0 <= k < |after| && after[k] == e;
      assert e.id == employees[k].id;
    }
    FilterNone(after, (e: Employee) => DueForDismissal(e, periods, today));
    var again := AfterDismissal(after, periods, today);
    forall k | 0 <= k < |after| ensures again[k] == after[k] {
      assert after[k] in after;
    }
  }

  /** The task logs exactly one row per employee it dismissed: the rows
      name pairwise different employees, each of them selected. */
  lemma DismissalRowsOnePerEmployee(employees: seq<Employee>, periods: seq<EmploymentPeriod>, today: Date, now: Timestamp)
    requires DistinctKeys(employees, EmployeeKey)
    ensures var selected := SelectedForDismissal(employees, periods, today);
      var rows := DismissalRows(selected, 1, now);
      (forall a, b :: 0 <= a < b < |rows| ==> rows[a].objectId != rows[b].objectId)
      && (forall h :: h in rows ==> exists e :: e in employees && DueForDismissal(e, periods, today) && h.objectId == e.id)
  {
    var selected := SelectedForDismissal(employees, periods, today);
    FilterDistinct(employees, EmployeeKey, (e: Employee) => DueForDismissal(e, periods, today));
    var rows := DismissalRows(selected, 1, now);
    forall h | h in rows ensures exists e :: e in employees && DueForDismissal(e, periods, today) && h.objectId == e.id {
      var k :| 0 <= k < |rows| && rows[k] == h;
      assert selected[k] in selected;
    }
  }

  /** The stored text of a status that has no blank at either end is the status itself. */
  lemma StatusTextOfLabel(s: string)
    requires s in [Working, Dismissed, EmploymentContract, PositionChange]
    ensures StatusText(Some(s)) == s
  {
    StripUnpadded(s);
  }

  /** The row the task writes by hand is the row the audited save would
      have logged for the same change; an employee whose status only
      differs from "Zwolniony" by surrounding blanks is still selected and
      logged by the task, where the audited save would log nothing. */
  lemma DismissalRowIsAuditRow(e: Employee, now: Timestamp)
    requires OptValid(e.studentEndDate)
    ensures StatusText(e.workingStatus) != Dismissed ==>
      EmployeeDiff(e, e.(workingStatus := Some(Dismissed)), Some(1), now) == DismissalRows([e], 1, now)
    ensures StatusText(e.workingStatus) == Dismissed ==>
      EmployeeDiff(e, e.(workingStatus := Some(Dismissed)), Some(1), now) == []
  {
    StatusOnlyDiff(e, Some(Dismissed), Some(1), now);
    StatusTextOfLabel(Dismissed);
  }

  // ------------------------------------------- commands that save each row

  /** Every stored employee's dates are calendar dates. */
  predicate EmployeeDatesValid(employees: seq<Employee>) {
    forall k :: 0 <= k < |employees| ==> OptValid(employees[k].studentEndDate)
  }

  /** The employee as a status save leaves it: the new status, stamped `now`. */
  function WithStatus(e: Employee, status: Option<string>, now: Timestamp): (r: Employee)
    ensures r.id == e.id && r.studentEndDate == e.studentEndDate
    ensures r.workingStatus == status && r.updatedAt == now
  {
    e.(workingStatus := status, updatedAt := now)
  }

  /** `employee.working_status = status; employee.save()` for the instance
      `e` loaded at position `k`, which equals its stored row. The save is
      the audited one, followed by the Employee receivers; the actor is the
      ambient user, since no `changed_by` is passed. */
  method SaveStatus(db: Database, cache: Store, slot: ActorSlot, t: ThreadId, k: nat, e: Employee, status: Option<string>, now: Timestamp)
    requires db.Valid() && k < |db.employees| && db.employees[k] == e && EmployeeDatesValid(db.employees)
    modifies db`employees, db`history, db`notifications, cache
    ensures db.Valid() && EmployeeDatesValid(db.employees)
    ensures db.employees == old(db.employees)[k := WithStatus(e, status, now)]
    ensures db.history == old(db.history) + StatusChange(e, status, Actor(None, slot.Get(t)), now)
    ensures db.notifications == (if status == Some(Dismissed) then AfterEmployeeDeleted(old(db.notifications), e.id) else old(db.notifications))
    ensures cache.entries == map[]
  {
    assert e in db.employees;
    FindByUnique(db.employees, EmployeeKey, e);
    IndexByUnique(db.employees, EmployeeKey, k);
    StatusOnlyDiff(e, status, Actor(None, slot.Get(t)), now);
    var _ := UpdateEmployee(db, cache, slot, t, e.id, e.(workingStatus := status), None, true, now);
  }

  /** The loaded employees `es` after the first `k` were given their target
      status and saved at `now`; the rest are as loaded. */
  function Retargeted(es: seq<Employee>, targets: seq<Option<string>>, now: Timestamp, k: nat): (r: seq<Employee>)
    requires k <= |targets| && k <= |es|
    ensures |r| == |es|
  {
    seq(|es|, j requires 0 <= j < |es| => if j < k then WithStatus(es[j], targets[j], now) else es[j])
  }

  /** Saving row `k` next moves the retargeted table on by that one row. */
  lemma RetargetedStep(es: seq<Employee>, targets: seq<Option<string>>, now: Timestamp, k: nat)
    requires k < |targets| && k < |es|
    ensures Retargeted(es, targets, now, k + 1) == Retargeted(es, targets, now, k)[k := WithStatus(es[k], targets[k], now)]
    ensures Retargeted(es, targets, now, k)[k] == es[k]
  {
  }

  /** The History rows the first `k` saves append, in order. */
  function StatusLog(es: seq<Employee>, targets: seq<Option<string>>, user: Option<UserId>, now: Timestamp, k: nat): seq<HistoryEntry>
    requires k <= |targets| && k <= |es|
  {
    Log(es, targets, (e, s) => StatusChange(e, s, user, now), k)
  }

  /** The notifications `ns` after the first `k` saves: each save as
      "Zwolniony" deletes the notifications of its employee. */
  function AfterSaves(ns: seq<Notification>, es: seq<Employee>, targets: seq<Option<string>>, k: nat): seq<Notification>
    requires k <= |targets| && k <= |es|
  {
    if k == 0 then ns
    else
      var rest := AfterSaves(ns, es, targets, k - 1);
      if targets[k - 1] == Some(Dismissed) then AfterEmployeeDeleted(rest, es[k - 1].id) else rest
  }

  /** The tables after `k + 1` saves are the tables after `k` saves,
      moved on by the save of row `k`. */
  lemma SaveStep(es: seq<Employee>, targets: seq<Option<string>>, user: Option<UserId>, now: Timestamp,
                 h0: seq<HistoryEntry>, n0: seq<Notification>, k: nat)
    requires k < |targets| && k < |es|
    ensures Retargeted(es, targets, now, k)[k] == es[k]
    ensures Retargeted(es, targets, now, k + 1) == Retargeted(es, targets, now, k)[k := WithStatus(es[k], targets[k], now)]
    ensures h0 + StatusLog(es, targets, user, now, k + 1) == (h0 + StatusLog(es, targets, user, now, k)) + StatusChange(es[k], targets[k], user, now)
    ensures AfterSaves(n0, es, targets, k + 1)
      == if targets[k] == Some(Dismissed) then AfterEmployeeDeleted(AfterSaves(n0, es, targets, k), es[k].id) else AfterSaves(n0, es, targets, k)
  {
    RetargetedStep(es, targets, now, k);
    AppendAssoc(h0, StatusLog(es, targets, user, now, k), StatusChange(es[k], targets[k], user, now));
  }

  /** One loop of a command over the loaded employees: the `k`-th is given
      `targets[k]` and saved, for the first `|targets|` rows of the table. */
  method SaveStatuses(db: Database, cache: Store, slot: ActorSlot, t: ThreadId, targets: seq<Option<string>>, now: Timestamp)
    requires db.Valid() && |targets| <= |db.employees| && EmployeeDatesValid(db.employees)
    modifies db`employees, db`history, db`notifications, cache
    ensures db.Valid() && EmployeeDatesValid(db.employees)
    ensures db.employees == Retargeted(old(db.employees), targets, now, |targets|)
    ensures db.history == old(db.history) + StatusLog(old(db.employees), targets, Actor(None, slot.Get(t)), now, |targets|)
    ensures db.notifications == AfterSaves(old(db.notifications), old(db.employees), targets, |targets|)
    ensures |targets| > 0 ==> cache.entries == map[]
    ensures |targets| == 0 ==> cache.entries == old(cache.entries)
  {
    var es := db.employees;
    ghost var h0, n0 := db.history, db.notifications;
    var i := 0;
    while i < |targets|
      invariant i <= |targets| && db.Valid() && EmployeeDatesValid(db.employees)
      invariant db.employees == Retargeted(es, targets, now, i)
      invariant db.history == h0 + StatusLog(es, targets, Actor(None, slot.Get(t)), now, i)
      invariant db.notifications == AfterSaves(n0, es, targets, i)
      invariant i > 0 ==> cache.entries == map[]
      invariant i == 0 ==> cache.entries == old(cache.entries)
    {
      SaveStep(es, targets, Actor(None, slot.Get(t)), now, h0, n0, i);
      SaveStatus(db, cache, slot, t, i, es[i], targets[i], now);
      i := i + 1;
    }
  }

  /** One of the first `k` employees of `es` has id `id` and is saved as "Zwolniony". */
  predicate DismissedBefore(es: seq<Employee>, targets: seq<Option<string>>, k: nat, id: Id)
    requires k <= |targets| && k <= |es|
  {
    exists j :: 0 <= j < k && es[j].id == id && targets[j] == Some(Dismissed)
  }

  /** A notification survives the first `k` saves exactly when none of them
      dismissed its employee: the Employee receiver deletes the employee's
      notifications on every save as "Zwolniony". */
  lemma {:induction false} AfterSavesMembers(n0: seq<Notification>, es: seq<Employee>, targets: seq<Option<string>>, k: nat)
    requires k <= |targets| && k <= |es|
    ensures forall n :: n in AfterSaves(n0, es, targets, k) <==> n in n0 && !DismissedBefore(es, targets, k, n.employee)
  {
    if k > 0 {
      AfterSavesMembers(n0, es, targets, k - 1);
      forall n: Notification
        ensures DismissedBefore(es, targets, k, n.employee)
          <==> DismissedBefore(es, targets, k - 1, n.employee) || (es[k - 1].id == n.employee && targets[k - 1] == Some(Dismissed))
      {
        if DismissedBefore(es, targets, k, n.employee) {
          var j :| 0 <= j < k && es[j].id == n.employee && targets[j] == Some(Dismissed);
          if j < k - 1 {
            assert DismissedBefore(es, targets, k - 1, n.employee);
          }
        }
        if DismissedBefore(es, targets, k - 1, n.employee) {
          var j :| 0 <= j < k - 1 && es[j].id == n.employee && targets[j] == Some(Dismissed);
          assert DismissedBefore(es, targets, k, n.employee);
        }
      }
    }
  }

  /** Every save among the first `k` that moves the normalised status logs
      its status row ... */
  lemma StatusLogComplete(es: seq<Employee>, targets: seq<Option<string>>, user: Option<UserId>, now: Timestamp, k: nat)
    requires k <= |targets| && k <= |es|
    ensures forall j :: 0 <= j < k && Moves(es[j], targets[j]) ==> MoveRow(es[j], targets[j], user, now) in StatusLog(es, targets, user, now, k)
  {
    LogComplete(es, targets, (e, s) => StatusChange(e, s, user, now), k);
  }

  /** ... and every row the saves log is the row of a save that moved it. */
  lemma StatusLogSound(es: seq<Employee>, targets: seq<Option<string>>, user: Option<UserId>, now: Timestamp, k: nat)
    requires k <= |targets| && k <= |es|
    ensures forall row :: row in StatusLog(es, targets, user, now, k) ==>
      exists j :: 0 <= j < k && Moves(es[j], targets[j]) && row == MoveRow(es[j], targets[j], user, now)
  {
    LogSound(es, targets, (e, s) => StatusChange(e, s, user, now), k);
  }




  // ---------------------------------------------------------- mark_status

  /** The id is in `green_mark`. */
  predicate GreenMarked(id: Id) {
    id in {3, 4, 5, 6, 7, 9, 10, 11, 13, 14, 18, 19, 22, 24, 27, 30, 33, 35, 36, 45, 51, 55, 59, 63, 97,
      116, 147, 152, 155, 157, 172, 181, 184, 193, 195, 202, 203, 213, 216, 219, 221, 223, 224, 227, 228, 229, 231, 235,
      239, 240, 241, 242, 244, 245, 246, 247, 248, 249, 250, 251, 252, 253, 254, 255, 256, 257, 258, 259, 260, 261, 262,
      263, 264, 265, 266}
  }

  /** The id is in `blue_mark`. */
  predicate BlueMarked(id: Id) {
    id in {1, 54, 230}
  }

  /** The id is in `white_mark`. */
  predicate WhiteMarked(id: Id) {
    id in {220, 243, 267, 268, 269, 270, 271, 272, 273, 274, 275}
  }

  /** The status the second loop of `mark_status` leaves on employee `id`:
      the first list holding the id decides, and an employee in none is
      saved again as "Zwolniony", the status the first loop gave it. */
  function FinalStatus(id: Id): (r: Option<string>)
    ensures r.Some? && (r.value == Working || r.value == Dismissed || r.value == EmploymentContract || r.value == PositionChange)
  {
    if GreenMarked(id) then Some(Working)
    else if BlueMarked(id) then Some(EmploymentContract)
    else if WhiteMarked(id) then Some(PositionChange)
    else Some(Dismissed)
  }

  /** The id is in one of the three lists. */
  predicate Listed(id: Id) {
    GreenMarked(id) || BlueMarked(id) || WhiteMarked(id)
  }

  /** No id is in two lists, so the order of the `elif` tests decides
      nothing; the listed ids, and only they, end with a status other than
      "Zwolniony", and that status is a choice label. */
  lemma FinalStatusByList(id: Id)
    ensures !(GreenMarked(id) && BlueMarked(id)) && !(GreenMarked(id) && WhiteMarked(id)) && !(BlueMarked(id) && WhiteMarked(id))
    ensures BlueMarked(id) ==> FinalStatus(id) == Some(EmploymentContract)
    ensures WhiteMarked(id) ==> FinalStatus(id) == Some(PositionChange)
    ensures Listed(id) <==> FinalStatus(id) != Some(Dismissed)
    ensures FinalStatus(id).value in [Working, Dismissed, EmploymentContract, PositionChange]
  {
  }

  /** The targets of the first loop: every loaded employee as "Zwolniony". */
  function Dismissals(n: nat): (r: seq<Option<string>>)
    ensures |r| == n
  {
    seq(n, _ => Some(Dismissed))
  }

  /** The targets of the second loop, by id. */
  function Finals(es: seq<Employee>): (r: seq<Option<string>>)
    ensures |r| == |es|
  {
    seq(|es|, k requires 0 <= k < |es| => FinalStatus(es[k].id))
  }

  /** The table after the first loop of `mark_status`. */
  function FirstLoop(es: seq<Employee>, now: Timestamp): seq<Employee> {
    Retargeted(es, Dismissals(|es|), now, |es|)
  }

  /** `mark_status`: one loop saves every employee as "Zwolniony", a second
      loop over the same loaded instances gives the listed employees their
      status and saves every instance again. */
  method MarkStatus(db: Database, cache: Store, slot: ActorSlot, t: ThreadId, now: Timestamp)
    requires db.Valid() && EmployeeDatesValid(db.employees)
    modifies db`employees, db`history, db`notifications, cache
    ensures db.Valid()
    ensures var es := old(db.employees);
      db.employees == Retargeted(FirstLoop(es, now), Finals(FirstLoop(es, now)), now, |es|)
    ensures var es := old(db.employees); var user := Actor(None, slot.Get(t));
      db.history == old(db.history) + StatusLog(es, Dismissals(|es|), user, now, |es|)
        + StatusLog(FirstLoop(es, now), Finals(FirstLoop(es, now)), user, now, |es|)
    ensures var es := old(db.employees);
      db.notifications
        == AfterSaves(AfterSaves(old(db.notifications), es, Dismissals(|es|), |es|), FirstLoop(es, now), Finals(FirstLoop(es, now)), |es|)
    ensures |old(db.employees)| > 0 ==> cache.entries == map[]
  {
    var n := |db.employees|;
    SaveStatuses(db, cache, slot, t, Dismissals(n), now);
    var loaded := db.employees;
    SaveStatuses(db, cache, slot, t, Finals(loaded), now);
  }

  /** After `mark_status` every employee has its final status, stamped at
      the time of the run, and nothing else about it changed. */
  lemma MarkStatusRows(es: seq<Employee>, now: Timestamp)
    ensures var r := Retargeted(FirstLoop(es, now), Finals(FirstLoop(es, now)), now, |es|);
      |r| == |es| && forall k :: 0 <= k < |es| ==> r[k] == WithStatus(es[k], FinalStatus(es[k].id), now)
  {
    var first := FirstLoop(es, now);
    var r := Retargeted(first, Finals(first), now, |es|);
    forall k | 0 <= k < |es|
      ensures r[k] == WithStatus(es[k], FinalStatus(es[k].id), now)
    {
      assert first[k] == WithStatus(es[k], Some(Dismissed), now);
      assert r[k] == WithStatus(first[k], FinalStatus(first[k].id), now);
    }
  }

  /** The first loop dismisses every loaded employee, so when every
      notification refers to a loaded employee, `mark_status` leaves no
      notification at all. */
  lemma MarkStatusClearsNotifications(es: seq<Employee>, n0: seq<Notification>, now: Timestamp)
    requires forall n :: n in n0 ==> exists e :: e in es && e.id == n.employee
    ensures AfterSaves(AfterSaves(n0, es, Dismissals(|es|), |es|), FirstLoop(es, now), Finals(FirstLoop(es, now)), |es|) == []
  {
    var d := Dismissals(|es|);
    var mid := AfterSaves(n0, es, d, |es|);
    AfterSavesMembers(n0, es, d, |es|);
    forall n | n in n0
      ensures DismissedBefore(es, d, |es|, n.employee)
    {
      var e :| e in es && e.id == n.employee;
      var k :| 0 <= k < |es| && es[k] == e;
    }
    NoMembersEmpty(mid);
    var first := FirstLoop(es, now);
    var r := AfterSaves(mid, first, Finals(first), |es|);
    AfterSavesMembers(mid, first, Finals(first), |es|);
    NoMembersEmpty(r);
  }

  /** The second loop of `mark_status` logs one row per listed employee,
      from "Zwolniony" to its label, and nothing else; an employee in no
      list is saved with an unchanged status and logs nothing. */
  lemma MarkStatusSecondLog(es: seq<Employee>, user: Option<UserId>, now: Timestamp)
    ensures var first := FirstLoop(es, now); var log := StatusLog(first, Finals(first), user, now, |es|);
      (forall k :: 0 <= k < |es| && Listed(es[k].id) ==>
         StatusRow(es[k].id, Dismissed, FinalStatus(es[k].id).value, user, now) in log)
      && (forall row :: row in log ==>
            exists k :: (0 <= k < |es| && Listed(es[k].id)
              && row == StatusRow(es[k].id, Dismissed, FinalStatus(es[k].id).value, user, now)))
  {
    var first := FirstLoop(es, now);
    var fs := Finals(first);
    var log := StatusLog(first, fs, user, now, |es|);
    forall k | 0 <= k < |es|
      ensures first[k].id == es[k].id && fs[k] == FinalStatus(es[k].id)
      ensures Moves(first[k], fs[k]) <==> Listed(es[k].id)
      ensures MoveRow(first[k], fs[k], user, now) == StatusRow(es[k].id, Dismissed, FinalStatus(es[k].id).value, user, now)
    {
      assert first[k] == WithStatus(es[k], Some(Dismissed), now);
      SecondLoopMoves(first[k]);
      SecondLoopRow(first[k], user, now);
    }
    StatusLogComplete(first, fs, user, now, |es|);
    StatusLogSound(first, fs, user, now, |es|);
  }

  /** The label a save in the second loop writes is the stripped text of
      the status it logs. */
  lemma FinalStatusText(id: Id)
    ensures StatusText(FinalStatus(id)) == FinalStatus(id).value
    ensures StatusText(Some(Dismissed)) == Dismissed
  {
    FinalStatusByList(id);
    StatusTextOfLabel(Dismissed);
    StatusTextOfLabel(FinalStatus(id).value);
  }

  /** The second loop's save of an employee the first loop dismissed
      changes its status exactly when the employee is listed. */
  lemma SecondLoopMoves(f: Employee)
    requires f.workingStatus == Some(Dismissed)
    ensures Moves(f, FinalStatus(f.id)) <==> Listed(f.id)
  {
    FinalStatusByList(f.id);
    FinalStatusText(f.id);
  }

  /** The row that save logs goes from "Zwolniony" to the final label. */
  lemma SecondLoopRow(f: Employee, user: Option<UserId>, now: Timestamp)
    requires f.workingStatus == Some(Dismissed)
    ensures MoveRow(f, FinalStatus(f.id), user, now) == StatusRow(f.id, Dismissed, FinalStatus(f.id).value, user, now)
  {
    FinalStatusText(f.id);
  }

  // --------------------------------------------------------- change_color

  /** `color_mapper`: each colour code to the label it stands for. */
  const ColorStatus: map<string, string> :=
    map["0080004D" := Working, "FFA5004D" := Dismissed, "0000FF4D" := EmploymentContract, "FFFFFF4D" := PositionChange]

  /** The mapper is the inverse of the model's status choices: every
      choice's code maps back to its label, and every code is a choice's. */
  lemma ColorStatusInvertsChoices()
    ensures forall i :: 0 <= i < |WorkingStatusChoices| ==>
      WorkingStatusChoices[i].1 in ColorStatus && ColorStatus[WorkingStatusChoices[i].1] == WorkingStatusChoices[i].0
    ensures forall code :: code in ColorStatus ==>
      exists i :: 0 <= i < |WorkingStatusChoices| && WorkingStatusChoices[i] == (ColorStatus[code], code)
  {
    forall code | code in ColorStatus
      ensures exists i :: 0 <= i < |WorkingStatusChoices| && WorkingStatusChoices[i] == (ColorStatus[code], code)
    {
      if code == "0080004D" {
        assert WorkingStatusChoices[0] == (ColorStatus[code], code);
      } else if code == "FFA5004D" {
        assert WorkingStatusChoices[1] == (ColorStatus[code], code);
      } else if code == "0000FF4D" {
        assert WorkingStatusChoices[2] == (ColorStatus[code], code);
      } else {
        assert WorkingStatusChoices[3] == (ColorStatus[code], code);
      }
    }
  }

  /** `color_mapper[employee.working_status]` finds the employee's status. */
  predicate Mapped(e: Employee) {
    e.workingStatus.Some? && e.workingStatus.value in ColorStatus
  }

  /** The position of the first loaded employee whose status is not a
      colour code, where the lookup raises `KeyError`; `|es|` when there is none. */
  function FirstUnmapped(es: seq<Employee>): (i: nat)
    ensures i <= |es|
    ensures forall j :: 0 <= j < i ==> Mapped(es[j])
    ensures i < |es| ==> !Mapped(es[i])
  {
    if es == [] || !Mapped(es[0]) then 0
    else
      var rest := FirstUnmapped(es[1..]);
      assert forall j :: 1 <= j < 1 + rest ==> es[j] == es[1..][j - 1];
      1 + rest
  }

  /** The labels the loop assigns to employees whose statuses are all codes. */
  function Recolours(es: seq<Employee>, n: nat): (r: seq<Option<string>>)
    requires n <= |es| && forall j :: 0 <= j < n ==> Mapped(es[j])
    ensures |r| == n
  {
    seq(n, j requires 0 <= j < n && Mapped(es[j]) => Some(ColorStatus[es[j].workingStatus.value]))
  }

  /** `change_color`: each loaded employee, in turn, gets the label of its
      colour code and is saved; the first status that is not a code raises
      `KeyError`, leaving the employees before it saved and the rest as
      they were. */
  method ChangeColor(db: Database, cache: Store, slot: ActorSlot, t: ThreadId, now: Timestamp) returns (r: Result<(), string>)
    requires db.Valid() && EmployeeDatesValid(db.employees)
    modifies db`employees, db`history, db`notifications, cache
    ensures db.Valid()
    ensures var es := old(db.employees); var n := FirstUnmapped(es);
      (r == Ok(()) <==> n == |es|) && (r != Ok(()) ==> r == Err("KeyError"))
    ensures var es := old(db.employees); var n := FirstUnmapped(es);
      db.employees == Retargeted(es, Recolours(es, n), now, n)
    ensures var es := old(db.employees); var n := FirstUnmapped(es);
      db.history == old(db.history) + StatusLog(es, Recolours(es, n), Actor(None, slot.Get(t)), now, n)
    ensures var es := old(db.employees); var n := FirstUnmapped(es);
      db.notifications == AfterSaves(old(db.notifications), es, Recolours(es, n), n)
  {
    var es := db.employees;
    ghost var n := FirstUnmapped(es);
    ghost var targets := Recolours(es, n);
    ghost var user := Actor(None, slot.Get(t));
    ghost var h0, n0 := db.history, db.notifications;
    var i := 0;
    while i < |es| && Mapped(es[i])
      invariant i <= n && db.Valid() && EmployeeDatesValid(db.employees)
      invariant db.employees == Retargeted(es, targets, now, i)
      invariant db.history == h0 + StatusLog(es, targets, user, now, i)
      invariant db.notifications == AfterSaves(n0, es, targets, i)
    {
      var next := Some(ColorStatus[es[i].workingStatus.value]);
      assert i < n && targets[i] == next;
      SaveStep(es, targets, user, now, h0, n0, i);
      SaveStatus(db, cache, slot, t, i, es[i], next, now);
      i := i + 1;
    }
    // the loop stops at the first status the mapper lacks: KeyError
    assert i == n;
    r := if i < |es| then Err("KeyError") else Ok(());
  }

  /** A run that raises nothing gives every employee the label of its
      colour code, stamped at the time of the run. */
  lemma ChangeColorRows(es: seq<Employee>, now: Timestamp)
    requires FirstUnmapped(es) == |es|
    ensures var r := Retargeted(es, Recolours(es, |es|), now, |es|);
      forall k :: 0 <= k < |es| ==>
        r[k] == WithStatus(es[k], Some(ColorStatus[es[k].workingStatus.value]), now)
  {
  }

  /** No label is a colour code, so once a run has relabelled a non-empty
      table, running the command again raises `KeyError` on the first
      employee and saves nothing. */
  lemma ChangeColorOnce(es: seq<Employee>, now: Timestamp)
    requires FirstUnmapped(es) == |es| && es != []
    ensures FirstUnmapped(Retargeted(es, Recolours(es, |es|), now, |es|)) == 0
  {
    LabelsAreNotCodes();
    var r := Retargeted(es, Recolours(es, |es|), now, |es|);
    assert r[0].workingStatus == Some(ColorStatus[es[0].workingStatus.value]);
  }

  /** The mapper's labels are none of its codes. */
  lemma LabelsAreNotCodes()
    ensures forall code :: code in ColorStatus ==> ColorStatus[code] !in ColorStatus
  {
  }
}
