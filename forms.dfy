/** The employee form (apps/main/forms.py): the yes/no choices, the
    assignment of the cleaned form onto an Employee, and the
    `update_or_create` calls that write one record of each kind per
    employee. The form's cleaned values are the input: required text
    fields are non-empty strings, optional text and choice fields are
    strings that may be empty, dates and the age are optional. */
module Forms {

  import opened Outcomes
  import opened Dates
  import opened Seqs
  import opened Entities
  import opened Db
  import opened Cache
  import opened ChangeUser
  import opened Audit
  import opened Signals
  import opened Saves
  import opened Notices

  /** `form.cleaned_data` of `EmployeeCompleteForm`. */
  datatype CleanedData = CleanedData(
    firstName: string, lastName: string, age: Option<nat>,
    isStudent: string, pesel: string, peselUrk: string, workplace: string, pit2: string,
    workingStatus: string, additionalInformation: string, studentEndDate: Option<Date>,
    employmentStartDate: Option<Date>, employmentEndDate: Option<Date>,
    docType: string, docNumber: string, docValidUntil: Option<Date>,
    workPermitType: string, workPermitEndDate: Option<Date>,
    cardSubmissionType: string, cardSubmissionStartDate: Option<Date>,
    contractType: string,
    sanepidStatus: string, sanepidEndDate: Option<Date>)

  // ------------------------------------------------------ yes/no choices

  /** `_string_to_bool`: "true" and "false" are the two answers; anything
      else, the blank choice included, is no answer. */
  function StringToBool(v: string): (r: Option<bool>)
    ensures r.Some? <==> v == "true" || v == "false"
    ensures r.Some? ==> (r.value <==> v == "true")
  {
    if v == "true" then Some(true)
    else if v == "false" then Some(false)
    else None
  }

  /** The initial value the edit form shows for a stored yes/no field:
      `"true" if flag else "false"`. */
  function InitialChoice(flag: Option<bool>): (s: string)
    ensures s == "true" <==> flag == Some(true)
    ensures s == "true" || s == "false"
  {
    if flag == Some(true) then "true" else "false"
  }

  /** A stored flag shown by the edit form and submitted unchanged comes
      back as an answer: a known flag keeps its value, an unknown one
      becomes `False`. */
  lemma ChoiceRoundTrip(flag: Option<bool>)
    ensures StringToBool(InitialChoice(flag)) == Some(flag == Some(true))
    ensures flag.Some? ==> StringToBool(InitialChoice(flag)) == flag
  {
    if flag.Some? && !flag.value {
      assert InitialChoice(flag) == "false";
    }
  }

  /** Both answers survive being parsed and shown again. */
  lemma AnswerRoundTrip(v: string)
    requires v == "true" || v == "false"
    ensures InitialChoice(StringToBool(v)) == v
  {
  }

  // --------------------------------------------------------- the employee

  /** `data.get('working_status') or None`: the blank choice is no status. */
  function StatusOrNone(s: string): (r: Option<string>)
    ensures r.None? <==> s == ""
    ensures r.Some? ==> r.value == s
  {
    if s == "" then None else Some(s)
  }

  /** The employee row as `save_to_models` leaves it before `save()`:
      every form field is assigned over `base`, blanks included; the key
      and the two timestamps are `base`'s. */
  function FormEmployee(d: CleanedData, base: Employee): (e: Employee)
    ensures e.id == base.id && e.createdAt == base.createdAt && e.updatedAt == base.updatedAt
  {
    base.(firstName := d.firstName, lastName := d.lastName, age := d.age,
          isStudent := StringToBool(d.isStudent), pesel := Some(d.pesel),
          peselUrk := StringToBool(d.peselUrk), workplace := Some(d.workplace),
          pit2 := StringToBool(d.pit2), workingStatus := StatusOrNone(d.workingStatus),
          additionalInformation := Some(d.additionalInformation),
          studentEndDate := d.studentEndDate)
  }

  /** The unsaved instance `Employee.objects.create(...)` starts from. */
  const Blank: Employee := Employee(0, "", "", None, None, None, None, None, None, None, None, 0, 0, None)

  /** On update every field the form carries is overwritten: what the
      stored row held before has no influence on the result beyond its key
      and timestamps, so an update writes what a create would write. */
  lemma UpdateOverwritesEveryField(d: CleanedData, stored: Employee)
    ensures FormEmployee(d, stored) == FormEmployee(d, Blank).(id := stored.id, createdAt := stored.createdAt, updatedAt := stored.updatedAt)
  {
  }

  /** A blank working status is stored as no status on both paths, and a
      chosen one is stored as chosen. */
  lemma BlankStatusIsNone(d: CleanedData, base: Employee)
    ensures FormEmployee(d, base).workingStatus.None? <==> d.workingStatus == ""
    ensures d.workingStatus != "" ==> FormEmployee(d, base).workingStatus == Some(d.workingStatus)
  {
  }

  /** Django's `DateField` only yields calendar dates. */
  predicate DatesValid(d: CleanedData) {
    OptValid(d.studentEndDate) && OptValid(d.employmentStartDate) && OptValid(d.employmentEndDate)
    && OptValid(d.docValidUntil) && OptValid(d.workPermitEndDate)
    && OptValid(d.cardSubmissionStartDate) && OptValid(d.sanepidEndDate)
  }

  /** `if employee_id:` — a key of 0 or none means a new employee. */
  predicate KeyGiven(employeeId: Option<Id>) {
    employeeId.Some? && employeeId.value != 0
  }

  /** The employee half of `save_to_models`: an update fetches the stored
      row (`DoesNotExist` when there is none), assigns the form over it and
      saves it with no explicit `changed_by`; a create saves a new row built
      from the form. The saves are those of the Saves module, HistoryMixin
      rows and post-save receivers included. */
  method SaveToModels(db: Database, cache: Store, slot: ActorSlot, t: ThreadId, d: CleanedData,
                      employeeId: Option<Id>, writeOk: bool, now: Timestamp)
    returns (r: Result<Id, string>)
    requires db.Valid() && DatesValid(d)
    requires KeyGiven(employeeId) ==> StoredEmployeeWellFormed(db, employeeId)
    modifies db`employees, db`nextId, db`history, db`notifications, cache
    ensures db.Valid()
    ensures !KeyGiven(employeeId) && !writeOk ==> r.Err? && unchanged(db) && unchanged(cache)
    ensures !KeyGiven(employeeId) && writeOk ==>
      var row := FormEmployee(d, Blank).(id := old(db.nextId), createdAt := now, updatedAt := now);
      r == Ok(row.id) && db.employees == old(db.employees) + [row]
      && db.history == old(db.history) + [CreatedMarker(row.id, slot.Get(t), now)]
      && cache.entries == map[]
    ensures KeyGiven(employeeId) && old(db.EmployeeById(employeeId.value)).None? ==>
      r == Err("DoesNotExist") && unchanged(db) && unchanged(cache)
    ensures KeyGiven(employeeId) && old(db.EmployeeById(employeeId.value)).Some? ==>
      var id := employeeId.value;
      var stored := old(db.EmployeeById(id)).value;
      db.history == old(db.history) + EmployeeDiff(stored, FormEmployee(d, stored), Actor(None, slot.Get(t)), now)
      && db.nextId == old(db.nextId)
      && (!writeOk ==> r.Err? && db.employees == old(db.employees) && unchanged(cache))
      && (writeOk ==>
            r == Ok(id) && cache.entries == map[]
            && db.employees == Update(old(db.employees), IndexBy(old(db.employees), EmployeeKey, id).value,
                                      FormEmployee(d, stored).(updatedAt := now)))
  {
    if !KeyGiven(employeeId) {
      r := CreateEmployee(db, cache, slot, t, FormEmployee(d, Blank), writeOk, now);
      return;
    }
    var id := employeeId.value;
    var stored := db.EmployeeById(id);
    if stored.None? {
      return Err("DoesNotExist");
    }
    var e := FormEmployee(d, stored.value);
    assert e.(id := id) == e;
    r := UpdateEmployee(db, cache, slot, t, id, e, None, writeOk, now);
  }

  // ------------------------------------------------ update_or_create by owner

  /** How many of `rows` belong to `employee`. */
  function Owned<T>(rows: seq<T>, owner: T -> Id, employee: Id): (n: nat)
    ensures n <= |rows|
    ensures n == 0 <==> forall i :: 0 <= i < |rows| ==> owner(rows[i]) != employee
  {
    if rows == [] then 0
    else (if owner(rows[0]) == employee then 1 else 0) + Owned(rows[1..], owner, employee)
  }

  /** Every row of `employee` rewritten, the others kept. */
  function RewriteOwned<T>(rows: seq<T>, owner: T -> Id, employee: Id, rewrite: T -> T): (r: seq<T>)
    ensures |r| == |rows|
    ensures forall i :: 0 <= i < |rows| && owner(rows[i]) != employee ==> r[i] == rows[i]
    ensures forall i :: 0 <= i < |rows| && owner(rows[i]) == employee ==> r[i] == rewrite(rows[i])
  {
    seq(|rows|, i requires 0 <= i < |rows| => if owner(rows[i]) == employee then rewrite(rows[i]) else rows[i])
  }

  /** `update_or_create(employee=employee, defaults=...)` on one table:
      with no row of the employee a new one (`newRow`) is appended; with one
      row, the defaults are written over it (`rewrite`); with more, `get`
      raises `MultipleObjectsReturned` and nothing is written. */
  function UpsertByEmployee<T>(rows: seq<T>, owner: T -> Id, employee: Id, newRow: T, rewrite: T -> T): (r: Result<seq<T>, string>)
    ensures r.Err? <==> Owned(rows, owner, employee) > 1
    ensures r.Err? ==> r.error == "MultipleObjectsReturned"
    ensures r.Ok? ==> |r.value| == |rows| + (if Owned(rows, owner, employee) == 0 then 1 else 0)
    ensures r.Ok? ==> forall i :: 0 <= i < |rows| && owner(rows[i]) != employee ==> r.value[i] == rows[i]
  {
    var n := Owned(rows, owner, employee);
    if n > 1 then Err("MultipleObjectsReturned")
    else if n == 0 then Ok(rows + [newRow])
    else Ok(RewriteOwned(rows, owner, employee, rewrite))
  }

  lemma {:induction false} OwnedAppend<T>(rows: seq<T>, x: T, owner: T -> Id, employee: Id)
    ensures Owned(rows + [x], owner, employee) == Owned(rows, owner, employee) + (if owner(x) == employee then 1 else 0)
    decreases |rows|
  {
    if rows == [] {
      assert rows + [x] == [x];
      assert [x][1..] == [];
    } else {
      assert (rows + [x])[0] == rows[0];
      assert (rows + [x])[1..] == rows[1..] + [x];
      OwnedAppend(rows[1..], x, owner, employee);
    }
  }

  lemma {:induction false} OwnedRewrite<T>(rows: seq<T>, owner: T -> Id, employee: Id, rewrite: T -> T)
    requires forall x :: owner(rewrite(x)) == owner(x)
    ensures Owned(RewriteOwned(rows, owner, employee, rewrite), owner, employee) == Owned(rows, owner, employee)
    decreases |rows|
  {
    var r := RewriteOwned(rows, owner, employee, rewrite);
    if rows != [] {
      assert r[1..] == RewriteOwned(rows[1..], owner, employee, rewrite);
      assert owner(r[0]) == owner(rows[0]);
      OwnedRewrite(rows[1..], owner, employee, rewrite);
    }
  }

  /** Whatever the table held, a successful upsert leaves exactly one row
      of the employee: the form keeps one record of each kind. */
  lemma UpsertLeavesOne<T>(rows: seq<T>, owner: T -> Id, employee: Id, newRow: T, rewrite: T -> T)
    requires owner(newRow) == employee && forall x :: owner(rewrite(x)) == owner(x)
    requires UpsertByEmployee(rows, owner, employee, newRow, rewrite).Ok?
    ensures Owned(UpsertByEmployee(rows, owner, employee, newRow, rewrite).value, owner, employee) == 1
  {
    if Owned(rows, owner, employee) == 0 {
      OwnedAppend(rows, newRow, owner, employee);
    } else {
      OwnedRewrite(rows, owner, employee, rewrite);
    }
  }

  /** Submitting the same form twice writes what submitting it once did,
      when the defaults do not depend on the row they overwrite. */
  lemma UpsertIdempotent<T>(rows: seq<T>, owner: T -> Id, employee: Id, newRow: T, newRow2: T, rewrite: T -> T)
    requires owner(newRow) == employee && forall x :: owner(rewrite(x)) == owner(x)
    requires rewrite(newRow) == newRow && forall x :: rewrite(rewrite(x)) == rewrite(x)
    requires UpsertByEmployee(rows, owner, employee, newRow, rewrite).Ok?
    ensures UpsertByEmployee(UpsertByEmployee(rows, owner, employee, newRow, rewrite).value, owner, employee, newRow2, rewrite)
         == UpsertByEmployee(rows, owner, employee, newRow, rewrite)
  {
    var once := UpsertByEmployee(rows, owner, employee, newRow, rewrite).value;
    UpsertLeavesOne(rows, owner, employee, newRow, rewrite);
    var twice := RewriteOwned(once, owner, employee, rewrite);
    assert twice == once by {
      forall i | 0 <= i < |once|
        ensures twice[i] == once[i]
      {
        if Owned(rows, owner, employee) == 0 && i == |rows| {
          assert once[i] == newRow;
        }
      }
    }
  }

  /** Every row of the employee after a successful upsert satisfies what
      both the new row and the defaults guarantee. */
  lemma {:induction false} UpsertOwnedSatisfy<T>(rows: seq<T>, owner: T -> Id, employee: Id, newRow: T, rewrite: T -> T, p: T -> bool)
    requires p(newRow) && forall x :: p(rewrite(x))
    requires UpsertByEmployee(rows, owner, employee, newRow, rewrite).Ok?
    ensures var r := UpsertByEmployee(rows, owner, employee, newRow, rewrite).value;
      forall i :: 0 <= i < |r| && owner(r[i]) == employee ==> p(r[i])
  {
    var r := UpsertByEmployee(rows, owner, employee, newRow, rewrite).value;
    if Owned(rows, owner, employee) == 0 {
      forall i | 0 <= i < |r| && owner(r[i]) == employee
        ensures p(r[i])
      {
        assert r[i] == (rows + [newRow])[i];
      }
    }
  }

  /** `update_or_create` together with the row it saved: `previous` is the
      stored row it rewrote, or `None` when it created `saved`. */
  datatype Upserted<T> = Upserted(rows: seq<T>, saved: T, previous: Option<T>)

  function Upsert<T(==,!new)>(rows: seq<T>, owner: T -> Id, employee: Id, newRow: T, rewrite: T -> T): (r: Result<Upserted<T>, string>)
    ensures r.Err? <==> UpsertByEmployee(rows, owner, employee, newRow, rewrite).Err?
    ensures r.Err? ==> r.error == "MultipleObjectsReturned"
    ensures r.Ok? ==> r.value.rows == UpsertByEmployee(rows, owner, employee, newRow, rewrite).value
    ensures r.Ok? ==> (r.value.previous.None? <==> Owned(rows, owner, employee) == 0)
    ensures r.Ok? && r.value.previous.None? ==> r.value.saved == newRow
    ensures r.Ok? && r.value.previous.Some? ==>
      r.value.previous.value in rows && owner(r.value.previous.value) == employee
      && r.value.saved == rewrite(r.value.previous.value)
  {
    match UpsertByEmployee(rows, owner, employee, newRow, rewrite)
    case Err(e) => Err(e)
    case Ok(next) =>
      if Owned(rows, owner, employee) == 0 then Ok(Upserted(next, newRow, None))
      else
        var i :| 0 <= i < |rows| && owner(rows[i]) == employee;
        var prev := FindBy(rows, owner, employee);
        assert rows[i] in rows;
        Ok(Upserted(next, rewrite(prev.value), prev))
  }

  /** A property every stored row has, the new row has, and the defaults
      establish, holds of every row after the upsert. */
  lemma UpsertKeeps<T>(rows: seq<T>, owner: T -> Id, employee: Id, newRow: T, rewrite: T -> T, p: T -> bool)
    requires (forall x :: x in rows ==> p(x)) && p(newRow) && forall x :: p(rewrite(x))
    requires UpsertByEmployee(rows, owner, employee, newRow, rewrite).Ok?
    ensures forall x :: x in UpsertByEmployee(rows, owner, employee, newRow, rewrite).value ==> p(x)
  {
    var r := UpsertByEmployee(rows, owner, employee, newRow, rewrite).value;
    forall x | x in r
      ensures p(x)
    {
      var i :| 0 <= i < |r| && r[i] == x;
      if i < |rows| {
        assert rows[i] in rows;
      }
    }
  }

  // ------------------------------------------------------ the sub-records

  /** The six tables `save_to_models` may write, the next key, and the
      History and Notification tables their saves write to. */
  datatype SubTables = SubTables(
    periods: seq<EmploymentPeriod>, documents: seq<Document>, permits: seq<WorkPermit>,
    cards: seq<CardSubmission>, contracts: seq<Contract>, sanepids: seq<Sanepid>, nextId: Id,
    history: seq<HistoryEntry>, notifications: seq<Notification>)

  /** The tables after the writes that ran, and the error that stopped the
      rest, if any. Each `update_or_create` runs in its own transaction, so
      the step that fails writes nothing, while the earlier steps stay. */
  datatype SubSave = SubSave(tables: SubTables, error: Option<string>)

  /** What the saves around the form need to know: the ambient user the
      History rows name, today's date for the expiry hooks, the time, and
      which expiry comparison the hooks make. */
  datatype SubContext = SubContext(user: Option<UserId>, today: Date, now: Timestamp, rule: HookRule)

  predicate ContextValid(c: SubContext) {
    Valid(c.today) && c.today.year < MaxYear
  }

  predicate PeriodValid(p: EmploymentPeriod) { Valid(p.startDate) && OptValid(p.endDate) }
  predicate DocumentValid(x: Document) { OptValid(x.validUntil) }
  predicate PermitValid(x: WorkPermit) { OptValid(x.endDate) }
  predicate CardValid(x: CardSubmission) { OptValid(x.startDate) }
  predicate SanepidValid(x: Sanepid) { OptValid(x.endDate) }

  /** The dates the stored rows hold are calendar dates. */
  predicate TablesValid(t: SubTables) {
    (forall x :: x in t.periods ==> PeriodValid(x))
    && (forall x :: x in t.documents ==> DocumentValid(x))
    && (forall x :: x in t.permits ==> PermitValid(x))
    && (forall x :: x in t.cards ==> CardValid(x))
    && (forall x :: x in t.sanepids ==> SanepidValid(x))
  }

  /** What a step may fail with: the upsert's `MultipleObjectsReturned`,
      or, under the hooks as written, their `AttributeError`. */
  predicate StepError(r: SubSave, rule: HookRule) {
    r.error.Some? ==> r.error.value == "MultipleObjectsReturned" || (rule == AsWritten && r.error.value == "AttributeError")
  }

  function PeriodOwner(p: EmploymentPeriod): Id { p.employee }
  function DocumentOwner(x: Document): Id { x.employee }
  function PermitOwner(x: WorkPermit): Id { x.employee }
  function CardOwner(x: CardSubmission): Id { x.employee }
  function ContractOwner(x: Contract): Id { x.employee }
  function SanepidOwner(x: Sanepid): Id { x.employee }

  /** The key allocated to a created row is consumed. */
  function Allocated(n: Id, created: bool): Id {
    if created then n + 1 else n
  }

  /** `str(employee)` as the sub-records' `employee` field shows it: the
      employee was saved from the same form just before. */
  function FormOwner(d: CleanedData): string { d.firstName + " " + d.lastName }

  /** `instance.employee.working_status == "Zwolniony"` in the hooks. */
  predicate FormDismissed(d: CleanedData) { d.workingStatus == Dismissed }

  /** The History rows of one upsert: none for a created row, the diff of
      the stored row against the rewritten one otherwise. */
  function Logged<T>(u: Upserted<T>, diff: (T, T) -> seq<HistoryEntry>): seq<HistoryEntry> {
    if u.previous.None? then [] else diff(u.previous.value, u.saved)
  }

  /** `if data.get('employment_start_date'):` upsert the period. */
  function SavePeriod(d: CleanedData, t: SubTables, employee: Id, c: SubContext): (r: SubSave)
    requires DatesValid(d) && TablesValid(t)
    ensures d.employmentStartDate.None? ==> r == SubSave(t, None)
    ensures Owned(t.periods, PeriodOwner, employee) <= 1 ==> r.error.None?
    ensures r.error.Some? ==> r.tables == t && r.error == Some("MultipleObjectsReturned")
    ensures r.tables.(periods := t.periods, nextId := t.nextId, history := t.history) == t
    ensures TablesValid(r.tables)
  {
    if d.employmentStartDate.None? then SubSave(t, None)
    else
      var start := d.employmentStartDate.value;
      var newRow := EmploymentPeriod(t.nextId, employee, start, d.employmentEndDate);
      var rewrite := (p: EmploymentPeriod) => p.(startDate := start, endDate := d.employmentEndDate);
      match Upsert(t.periods, PeriodOwner, employee, newRow, rewrite)
      case Err(e) => SubSave(t, Some(e))
      case Ok(u) =>
        UpsertKeeps(t.periods, PeriodOwner, employee, newRow, rewrite, PeriodValid);
        var logged := if u.previous.None? then [] else PeriodDiff(u.previous.value, u.saved, FormOwner(d), c.user, c.now);
        SubSave(t.(periods := u.rows, nextId := Allocated(t.nextId, u.previous.None?), history := t.history + logged), None)
  }

  function NewDocument(d: CleanedData, id: Id, employee: Id): Document {
    Document(id, employee, Some(d.docType), Some(d.docNumber), d.docValidUntil)
  }

  function DocumentDefaults(d: CleanedData): Document -> Document {
    (x: Document) => x.(docType := Some(d.docType), number := Some(d.docNumber), validUntil := d.docValidUntil)
  }

  /** `if data.get('doc_type'):` upsert the identity document; its save
      logs the diff and runs `delete_notifications_if_document_valid`. */
  function SaveDocumentRow(d: CleanedData, t: SubTables, employee: Id, c: SubContext): (r: SubSave)
    requires DatesValid(d) && TablesValid(t) && ContextValid(c)
    ensures d.docType == "" ==> r == SubSave(t, None)
    ensures c.rule == Intended && Owned(t.documents, DocumentOwner, employee) <= 1 ==> r.error.None?
    ensures r.error.Some? ==> r.tables == t && StepError(r, c.rule)
    ensures r.tables.(documents := t.documents, nextId := t.nextId, history := t.history, notifications := t.notifications) == t
    ensures TablesValid(r.tables)
  {
    if d.docType == "" then SubSave(t, None)
    else
      var newRow := NewDocument(d, t.nextId, employee);
      match Upsert(t.documents, DocumentOwner, employee, newRow, DocumentDefaults(d))
      case Err(e) => SubSave(t, Some(e))
      case Ok(u) =>
        match FormHook(c.rule, u.saved.validUntil, FormDismissed(d), c.today)
        case Err(e) => SubSave(t, Some(e))
        case Ok(delete) =>
          UpsertKeeps(t.documents, DocumentOwner, employee, newRow, DocumentDefaults(d), DocumentValid);
          var logged := if u.previous.None? then [] else DocumentDiff(u.previous.value, FormOwner(d), u.saved, FormOwner(d), c.user, c.now);
          SubSave(t.(documents := u.rows, nextId := Allocated(t.nextId, u.previous.None?),
                     history := t.history + logged,
                     notifications := if delete then AfterDocumentDeleted(t.notifications, u.saved.id) else t.notifications), None)
  }

  function PermitDefaults(d: CleanedData): WorkPermit -> WorkPermit {
    (x: WorkPermit) => x.(docType := Some(d.workPermitType), endDate := d.workPermitEndDate)
  }

  /** `if data.get('work_permit_type'):` upsert the work permit; its save
      logs the diff and runs `delete_notifications_if_permit_valid`. */
  function SavePermit(d: CleanedData, t: SubTables, employee: Id, c: SubContext): (r: SubSave)
    requires DatesValid(d) && TablesValid(t) && ContextValid(c)
    ensures d.workPermitType == "" ==> r == SubSave(t, None)
    ensures c.rule == Intended && Owned(t.permits, PermitOwner, employee) <= 1 ==> r.error.None?
    ensures r.error.Some? ==> r.tables == t && StepError(r, c.rule)
    ensures r.tables.(permits := t.permits, nextId := t.nextId, history := t.history, notifications := t.notifications) == t
    ensures TablesValid(r.tables)
  {
    if d.workPermitType == "" then SubSave(t, None)
    else
      var newRow := WorkPermit(t.nextId, employee, Some(d.workPermitType), d.workPermitEndDate);
      match Upsert(t.permits, PermitOwner, employee, newRow, PermitDefaults(d))
      case Err(e) => SubSave(t, Some(e))
      case Ok(u) =>
        match FormHook(c.rule, u.saved.endDate, FormDismissed(d), c.today)
        case Err(e) => SubSave(t, Some(e))
        case Ok(delete) =>
          UpsertKeeps(t.permits, PermitOwner, employee, newRow, PermitDefaults(d), PermitValid);
          var logged := if u.previous.None? then [] else PermitDiff(u.previous.value, u.saved, FormOwner(d), c.user, c.now);
          SubSave(t.(permits := u.rows, nextId := Allocated(t.nextId, u.previous.None?),
                     history := t.history + logged,
                     notifications := if delete then AfterPermitDeleted(t.notifications, u.saved.id) else t.notifications), None)
  }

  /** `if data.get('card_submission_type'):` upsert the card submission. */
  function SaveCard(d: CleanedData, t: SubTables, employee: Id, c: SubContext): (r: SubSave)
    requires DatesValid(d) && TablesValid(t)
    ensures d.cardSubmissionType == "" ==> r == SubSave(t, None)
    ensures Owned(t.cards, CardOwner, employee) <= 1 ==> r.error.None?
    ensures r.error.Some? ==> r.tables == t && r.error == Some("MultipleObjectsReturned")
    ensures r.tables.(cards := t.cards, nextId := t.nextId, history := t.history) == t
    ensures TablesValid(r.tables)
  {
    if d.cardSubmissionType == "" then SubSave(t, None)
    else
      var newRow := CardSubmission(t.nextId, employee, Some(d.cardSubmissionType), d.cardSubmissionStartDate);
      var rewrite := (x: CardSubmission) => x.(docType := Some(d.cardSubmissionType), startDate := d.cardSubmissionStartDate);
      match Upsert(t.cards, CardOwner, employee, newRow, rewrite)
      case Err(e) => SubSave(t, Some(e))
      case Ok(u) =>
        UpsertKeeps(t.cards, CardOwner, employee, newRow, rewrite, CardValid);
        var logged := if u.previous.None? then [] else CardDiff(u.previous.value, u.saved, FormOwner(d), c.user, c.now);
        SubSave(t.(cards := u.rows, nextId := Allocated(t.nextId, u.previous.None?), history := t.history + logged), None)
  }

  /** `if data.get('contract_type'):` upsert the contract. */
  function SaveContract(d: CleanedData, t: SubTables, employee: Id, c: SubContext): (r: SubSave)
    requires TablesValid(t)
    ensures d.contractType == "" ==> r == SubSave(t, None)
    ensures Owned(t.contracts, ContractOwner, employee) <= 1 ==> r.error.None?
    ensures r.error.Some? ==> r.tables == t && r.error == Some("MultipleObjectsReturned")
    ensures r.tables.(contracts := t.contracts, nextId := t.nextId, history := t.history) == t
    ensures TablesValid(r.tables)
  {
    if d.contractType == "" then SubSave(t, None)
    else
      var newRow := Contract(t.nextId, employee, d.contractType);
      var rewrite := (x: Contract) => x.(contractType := d.contractType);
      match Upsert(t.contracts, ContractOwner, employee, newRow, rewrite)
      case Err(e) => SubSave(t, Some(e))
      case Ok(u) =>
        var logged := if u.previous.None? then [] else ContractDiff(u.previous.value, u.saved, FormOwner(d), c.user, c.now);
        SubSave(t.(contracts := u.rows, nextId := Allocated(t.nextId, u.previous.None?), history := t.history + logged), None)
  }

  /** The sanepid defaults: the status is written to both `status` and
      `doc_type`. */
  function SanepidDefaults(d: CleanedData): Sanepid -> Sanepid {
    (x: Sanepid) => x.(status := Some(d.sanepidStatus), docType := Some(d.sanepidStatus), endDate := d.sanepidEndDate)
  }

  /** `if data.get('sanepid_status'):` upsert the sanepid record. */
  function SaveSanepid(d: CleanedData, t: SubTables, employee: Id, c: SubContext): (r: SubSave)
    requires DatesValid(d) && TablesValid(t)
    ensures d.sanepidStatus == "" ==> r == SubSave(t, None)
    ensures Owned(t.sanepids, SanepidOwner, employee) <= 1 ==> r.error.None?
    ensures r.error.Some? ==> r.tables == t && r.error == Some("MultipleObjectsReturned")
    ensures r.tables.(sanepids := t.sanepids, nextId := t.nextId, history := t.history) == t
    ensures TablesValid(r.tables)
  {
    if d.sanepidStatus == "" then SubSave(t, None)
    else
      var newRow := Sanepid(t.nextId, employee, Some(d.sanepidStatus), Some(d.sanepidStatus), d.sanepidEndDate);
      match Upsert(t.sanepids, SanepidOwner, employee, newRow, SanepidDefaults(d))
      case Err(e) => SubSave(t, Some(e))
      case Ok(u) =>
        UpsertKeeps(t.sanepids, SanepidOwner, employee, newRow, SanepidDefaults(d), SanepidValid);
        var logged := if u.previous.None? then [] else SanepidDiff(u.previous.value, u.saved, FormOwner(d), c.user, c.now);
        SubSave(t.(sanepids := u.rows, nextId := Allocated(t.nextId, u.previous.None?), history := t.history + logged), None)
  }

  /** The sub-record half of `save_to_models`, in source order: period,
      document, permit, card, contract, sanepid; the first step that fails
      stops the rest. With the hooks as written a dated document or permit
      of a working employee stops it; with the intended hooks only a
      duplicated record does. */
  function SaveSubRecords(d: CleanedData, t: SubTables, employee: Id, c: SubContext): (r: SubSave)
    requires DatesValid(d) && TablesValid(t) && ContextValid(c)
    ensures StepError(r, c.rule)
    ensures c.rule == Intended ==> r.error.Some? ==> r.error == Some("MultipleObjectsReturned")
  {
    var s1 := SavePeriod(d, t, employee, c);
    if s1.error.Some? then s1 else
    var s2 := SaveDocumentRow(d, s1.tables, employee, c);
    if s2.error.Some? then s2 else
    var s3 := SavePermit(d, s2.tables, employee, c);
    if s3.error.Some? then s3 else
    var s4 := SaveCard(d, s3.tables, employee, c);
    if s4.error.Some? then s4 else
    var s5 := SaveContract(d, s4.tables, employee, c);
    if s5.error.Some? then s5 else
    SaveSanepid(d, s5.tables, employee, c)
  }

  /** A form whose key fields are all blank writes no sub-record. */
  lemma BlankFormWritesNothing(d: CleanedData, t: SubTables, employee: Id, c: SubContext)
    requires DatesValid(d) && TablesValid(t) && ContextValid(c)
    requires d.employmentStartDate.None? && d.docType == "" && d.workPermitType == ""
    requires d.cardSubmissionType == "" && d.contractType == "" && d.sanepidStatus == ""
    ensures SaveSubRecords(d, t, employee, c) == SubSave(t, None)
  {
  }

  /** A blank key field leaves its table as it was, whatever the other
      fields write. */
  lemma BlankKeyKeepsTable(d: CleanedData, t: SubTables, employee: Id, c: SubContext)
    requires DatesValid(d) && TablesValid(t) && ContextValid(c)
    ensures d.employmentStartDate.None? ==> SaveSubRecords(d, t, employee, c).tables.periods == t.periods
    ensures d.docType == "" ==> SaveSubRecords(d, t, employee, c).tables.documents == t.documents
    ensures d.workPermitType == "" ==> SaveSubRecords(d, t, employee, c).tables.permits == t.permits
    ensures d.cardSubmissionType == "" ==> SaveSubRecords(d, t, employee, c).tables.cards == t.cards
    ensures d.contractType == "" ==> SaveSubRecords(d, t, employee, c).tables.contracts == t.contracts
    ensures d.sanepidStatus == "" ==> SaveSubRecords(d, t, employee, c).tables.sanepids == t.sanepids
  {
    var s1 := SavePeriod(d, t, employee, c);
    if s1.error.None? {
      var s2 := SaveDocumentRow(d, s1.tables, employee, c);
      if s2.error.None? {
        var s3 := SavePermit(d, s2.tables, employee, c);
        if s3.error.None? {
          var s4 := SaveCard(d, s3.tables, employee, c);
          if s4.error.None? {
            var s5 := SaveContract(d, s4.tables, employee, c);
            if s5.error.None? {
              assert SaveSubRecords(d, t, employee, c) == SaveSanepid(d, s5.tables, employee, c);
            }
          }
        }
      }
    }
  }

  /** After a sanepid write, the employee's sanepid rows carry the status
      in both `status` and `doc_type`, and exactly one such row exists. */
  lemma SanepidStatusTwice(d: CleanedData, t: SubTables, employee: Id, c: SubContext)
    requires DatesValid(d) && TablesValid(t)
    requires d.sanepidStatus != ""
    requires SaveSanepid(d, t, employee, c).error.None?
    ensures var s := SaveSanepid(d, t, employee, c).tables.sanepids;
      Owned(s, SanepidOwner, employee) == 1
      && forall i :: 0 <= i < |s| && s[i].employee == employee ==>
           s[i].status == Some(d.sanepidStatus) && s[i].docType == Some(d.sanepidStatus) && s[i].endDate == d.sanepidEndDate
  {
    var newRow := Sanepid(t.nextId, employee, Some(d.sanepidStatus), Some(d.sanepidStatus), d.sanepidEndDate);
    var p := (x: Sanepid) => x.status == Some(d.sanepidStatus) && x.docType == Some(d.sanepidStatus) && x.endDate == d.sanepidEndDate;
    UpsertLeavesOne(t.sanepids, SanepidOwner, employee, newRow, SanepidDefaults(d));
    UpsertOwnedSatisfy(t.sanepids, SanepidOwner, employee, newRow, SanepidDefaults(d), p);
  }

  /** The document write keeps exactly one document of the employee,
      holding the submitted type, number and expiry, and leaves every other
      employee's documents in place. */
  lemma DocumentRewritten(d: CleanedData, t: SubTables, employee: Id, c: SubContext)
    requires DatesValid(d) && TablesValid(t) && ContextValid(c)
    requires d.docType != ""
    requires SaveDocumentRow(d, t, employee, c).error.None?
    ensures var s := SaveDocumentRow(d, t, employee, c).tables.documents;
      Owned(s, DocumentOwner, employee) == 1
      && (forall i :: 0 <= i < |s| && s[i].employee == employee ==>
            s[i].docType == Some(d.docType) && s[i].number == Some(d.docNumber) && s[i].validUntil == d.docValidUntil)
      && (forall i :: 0 <= i < |t.documents| && t.documents[i].employee != employee ==> s[i] == t.documents[i])
  {
    var newRow := NewDocument(d, t.nextId, employee);
    var p := (x: Document) => x.docType == Some(d.docType) && x.number == Some(d.docNumber) && x.validUntil == d.docValidUntil;
    UpsertLeavesOne(t.documents, DocumentOwner, employee, newRow, DocumentDefaults(d));
    UpsertOwnedSatisfy(t.documents, DocumentOwner, employee, newRow, DocumentDefaults(d), p);
  }

  /** With the intended hooks, a form over an employee who has at most one
      row in each sub-table saves every sub-record. */
  lemma IntendedFormCompletes(d: CleanedData, t: SubTables, employee: Id, c: SubContext)
    requires DatesValid(d) && TablesValid(t) && ContextValid(c) && c.rule == Intended
    requires Owned(t.periods, PeriodOwner, employee) <= 1 && Owned(t.documents, DocumentOwner, employee) <= 1
    requires Owned(t.permits, PermitOwner, employee) <= 1 && Owned(t.cards, CardOwner, employee) <= 1
    requires Owned(t.contracts, ContractOwner, employee) <= 1 && Owned(t.sanepids, SanepidOwner, employee) <= 1
    ensures SaveSubRecords(d, t, employee, c).error.None?
  {
    var s1 := SavePeriod(d, t, employee, c);
    var s2 := SaveDocumentRow(d, s1.tables, employee, c);
    var s3 := SavePermit(d, s2.tables, employee, c);
    var s4 := SaveCard(d, s3.tables, employee, c);
    var s5 := SaveContract(d, s4.tables, employee, c);
    assert s1.error.None? && s2.error.None? && s3.error.None? && s4.error.None? && s5.error.None?;
  }

  /** With the hooks as written, a dated document of an employee who is
      not dismissed stops the form right after the period: the document,
      permit, card, contract and sanepid tables keep their old rows. */
  lemma DatedDocumentStopsTheForm(d: CleanedData, t: SubTables, employee: Id, c: SubContext)
    requires DatesValid(d) && TablesValid(t) && ContextValid(c) && c.rule == AsWritten
    requires d.docType != "" && d.docValidUntil.Some? && !FormDismissed(d)
    requires Owned(t.periods, PeriodOwner, employee) <= 1 && Owned(t.documents, DocumentOwner, employee) <= 1
    ensures SaveSubRecords(d, t, employee, c) == SubSave(SavePeriod(d, t, employee, c).tables, Some("AttributeError"))
  {
    var s1 := SavePeriod(d, t, employee, c);
    var u := Upsert(s1.tables.documents, DocumentOwner, employee, NewDocument(d, s1.tables.nextId, employee), DocumentDefaults(d));
    assert u.Ok? && u.value.saved.validUntil == d.docValidUntil;
  }

  /** With the intended hook, the document save clears the employee's
      document notices exactly when the submitted expiry is stale. */
  lemma IntendedDocumentNotices(d: CleanedData, t: SubTables, employee: Id, c: SubContext)
    requires DatesValid(d) && TablesValid(t) && ContextValid(c) && c.rule == Intended
    requires d.docType != "" && Owned(t.documents, DocumentOwner, employee) <= 1
    ensures var r := SaveDocumentRow(d, t, employee, c).tables;
      if Stale(d.docValidUntil, FormDismissed(d), c.today) then
        exists i :: 0 <= i < |r.documents| && r.documents[i].employee == employee
          && r.notifications == AfterDocumentDeleted(t.notifications, r.documents[i].id)
      else r.notifications == t.notifications
  {
    var newRow := NewDocument(d, t.nextId, employee);
    var u := Upsert(t.documents, DocumentOwner, employee, newRow, DocumentDefaults(d)).value;
    assert u.saved.validUntil == d.docValidUntil;
    if Stale(d.docValidUntil, FormDismissed(d), c.today) {
      if u.previous.None? {
        assert u.rows[|t.documents|] == u.saved;
      } else {
        var j :| 0 <= j < |t.documents| && t.documents[j] == u.previous.value;
        assert u.rows == RewriteOwned(t.documents, DocumentOwner, employee, DocumentDefaults(d));
        assert u.rows[j] == u.saved;
      }
    }
  }

  /** Submitting the document the employee already holds logs no History
      row. */
  lemma DocumentResubmitLogsNothing(d: CleanedData, t: SubTables, employee: Id, c: SubContext)
    requires DatesValid(d) && TablesValid(t) && ContextValid(c) && c.rule == Intended
    requires d.docType != "" && Owned(t.documents, DocumentOwner, employee) == 1
    requires forall x :: x in t.documents && x.employee == employee ==>
      x.docType == Some(d.docType) && x.number == Some(d.docNumber) && x.validUntil == d.docValidUntil
    ensures SaveDocumentRow(d, t, employee, c).tables.history == t.history
  {
    var u := Upsert(t.documents, DocumentOwner, employee, NewDocument(d, t.nextId, employee), DocumentDefaults(d)).value;
    var x := u.previous.value;
    assert u.saved == x;
    DocumentFieldsAlign(x, FormOwner(d), x, FormOwner(d));
    DiffUnchanged(DocumentModel, x.id, DocumentFields(x, FormOwner(d)), c.user, c.now);
  }
}
