/** A whole `save()` or `delete()` of an Employee, Document or WorkPermit as
    Django runs it: the HistoryMixin diff, the row write, then the
    post-save or post-delete receivers in registration order. No transaction
    wraps the sequence, so a failing row write keeps the diff rows already
    logged. Whether the row write itself succeeds (a database constraint) is
    the parameter `writeOk`. */
module Saves {

  import opened Outcomes
  import opened Dates
  import opened Seqs
  import opened Entities
  import opened Db
  import opened Notices
  import opened Cache
  import opened ChangeUser
  import opened Audit
  import opened Signals

  /** The stored employee, when its dates are calendar dates. */
  predicate StoredEmployeeWellFormed(db: Database, pk: Option<Id>)
    reads db`employees
  {
    pk.Some? && db.EmployeeById(pk.value).Some? ==> OptValid(db.EmployeeById(pk.value).value.studentEndDate)
  }

  /** The post-save receivers of an Employee, in registration order:
      `log_post_save`, `invalidate_employee_cache`,
      `delete_notification_working_status`. */
  method PostSaveEmployee(db: Database, cache: Store, slot: ActorSlot, t: ThreadId, row: Employee, created: bool, now: Timestamp)
    requires db.Valid()
    modifies db`history, db`notifications, cache
    ensures db.Valid()
    ensures db.history == old(db.history) + (if created then [CreatedMarker(row.id, slot.Get(t), now)] else [])
    ensures db.notifications == (if IsDismissed(row) then AfterEmployeeDeleted(old(db.notifications), row.id) else old(db.notifications))
    ensures cache.entries == map[]
  {
    LogPostSave(db, slot, t, row.id, created, now);
    cache.Clear();
    DeleteNotificationsOfDismissed(db, row);
  }

  /** `employee.save()` of a new instance (no key yet): the row gets the
      next key, and the marker names the ambient user, never `changed_by`. */
  method CreateEmployee(db: Database, cache: Store, slot: ActorSlot, t: ThreadId, e: Employee, writeOk: bool, now: Timestamp)
    returns (r: Result<Id, string>)
    requires db.Valid()
    modifies db`employees, db`nextId, db`history, db`notifications, cache
    ensures db.Valid()
    ensures !writeOk ==> r.Err? && unchanged(db) && unchanged(cache)
    ensures writeOk ==>
      var row := e.(id := old(db.nextId), createdAt := now, updatedAt := now);
      r == Ok(row.id) && db.employees == old(db.employees) + [row]
      && db.history == old(db.history) + [CreatedMarker(row.id, slot.Get(t), now)]
      && db.notifications == (if IsDismissed(row) then AfterEmployeeDeleted(old(db.notifications), row.id) else old(db.notifications))
      && cache.entries == map[]
  {
    if !writeOk {
      return Err("IntegrityError");
    }
    var row := e.(id := db.nextId, createdAt := now, updatedAt := now);
    db.InsertEmployee(row);
    PostSaveEmployee(db, cache, slot, t, row, true, now);
    return Ok(row.id);
  }

  /** `employee.save(changed_by=...)` of an instance with key `id`: the
      stored row is diffed against the instance and the diff logged, then
      the row is written and the post-save receivers run. */
  method UpdateEmployee(db: Database, cache: Store, slot: ActorSlot, t: ThreadId, id: Id, e: Employee,
                        changedBy: Option<UserId>, writeOk: bool, now: Timestamp)
    returns (r: Result<Id, string>)
    requires db.Valid() && OptValid(e.studentEndDate) && StoredEmployeeWellFormed(db, Some(id))
    modifies db`employees, db`history, db`notifications, cache
    ensures db.Valid()
    ensures old(db.EmployeeById(id)).None? ==> r == Err("DoesNotExist") && unchanged(db) && unchanged(cache)
    ensures old(db.EmployeeById(id)).Some? ==>
      var stored := old(db.EmployeeById(id)).value;
      var row := e.(id := id, updatedAt := now);
      db.history == old(db.history)
        + EmployeeDiff(stored, e.(id := id), Actor(changedBy, slot.Get(t)), now)
      && (!writeOk ==>
           r.Err? && db.employees == old(db.employees) && db.notifications == old(db.notifications)
           && unchanged(cache))
      && (writeOk ==>
           r == Ok(id)
           && db.employees == Update(old(db.employees), IndexBy(old(db.employees), EmployeeKey, id).value, row)
           && db.notifications == (if IsDismissed(row) then AfterEmployeeDeleted(old(db.notifications), id) else old(db.notifications))
           && cache.entries == map[])
  {
    var stored := db.EmployeeById(id);
    if stored.None? {
      return Err("DoesNotExist");
    }
    var instance := e.(id := id);
    EmployeeFieldsAlign(stored.value, instance);
    var _ := MixinSave(db, slot, t, EmployeeModel, Some(id), Some(EmployeeFields(stored.value)), EmployeeFields(instance), changedBy, now);
    if !writeOk {
      return Err("IntegrityError");
    }
    WriteEmployee(db, cache, slot, t, instance.(updatedAt := now), now);
    return Ok(id);
  }

  /** The row write of an update, then the post-save receivers. */
  method WriteEmployee(db: Database, cache: Store, slot: ActorSlot, t: ThreadId, row: Employee, now: Timestamp)
    requires db.Valid() && db.HasEmployee(row.id)
    modifies db`employees, db`history, db`notifications, cache
    ensures db.Valid() && db.history == old(db.history)
    ensures db.employees == Update(old(db.employees), IndexBy(old(db.employees), EmployeeKey, row.id).value, row)
    ensures db.notifications == (if IsDismissed(row) then AfterEmployeeDeleted(old(db.notifications), row.id) else old(db.notifications))
    ensures cache.entries == map[]
  {
    var i := IndexBy(db.employees, EmployeeKey, row.id).value;
    db.ReplaceEmployees(Update(db.employees, i, row));
    PostSaveEmployee(db, cache, slot, t, row, false, now);
  }

  /** `employee.delete()`: the mixin purges the employee's History rows, the
      row is deleted with everything that cascades from it, then
      `log_post_delete` appends the "deleted" marker and the cache is
      flushed. The History rows of the cascaded documents and other
      sub-records stay (a cascade does not call their `delete`). */
  method DeleteEmployee(db: Database, cache: Store, slot: ActorSlot, t: ThreadId, id: Id, now: Timestamp)
    requires db.Valid() && db.HasEmployee(id)
    modifies db`employees, db`periods, db`documents, db`permits, db`cards, db`contracts, db`sanepids
    modifies db`notifications, db`history, cache
    ensures db.Valid() && !db.HasEmployee(id)
    ensures db.employees == Filter(old(db.employees), OtherEmployee(id))
    ensures db.history == (if id != 0 then Purged(old(db.history), EmployeeModel, id) else old(db.history))
      + [DeletedMarker(old(db.EmployeeById(id)).value, slot.Get(t), now)]
    ensures forall n :: n in db.notifications ==> n in old(db.notifications) && n.employee != id
    ensures cache.entries == map[]
  {
    var e := db.EmployeeById(id).value;
    MixinDelete(db, EmployeeModel, Some(id));
    db.DeleteEmployeeCascade(id);
    PostDeleteEmployee(db, cache, slot, t, e, now);
  }

  /** The post-delete receivers of an Employee: `log_post_delete`, then
      `invalidate_employee_cache`. */
  method PostDeleteEmployee(db: Database, cache: Store, slot: ActorSlot, t: ThreadId, e: Employee, now: Timestamp)
    modifies db`history, cache
    ensures db.Valid() == old(db.Valid())
    ensures db.history == old(db.history) + [DeletedMarker(e, slot.Get(t), now)]
    ensures cache.entries == map[]
  {
    LogPostDelete(db, slot, t, e, now);
    cache.Clear();
  }

  /** Whether a History row is about this object. */
  function RowOf(model: ModelKind, pk: Id): HistoryEntry -> bool {
    (h: HistoryEntry) => h.model == model && h.objectId == pk
  }

  /** After an employee (with a non-zero key) is deleted, exactly one
      History row remains about it: the "deleted" marker. */
  lemma DeleteLeavesOneRow(history: seq<HistoryEntry>, e: Employee, user: Option<UserId>, now: Timestamp)
    requires e.id != 0
    ensures Filter(Purged(history, EmployeeModel, e.id) + [DeletedMarker(e, user, now)], RowOf(EmployeeModel, e.id))
      == [DeletedMarker(e, user, now)]
  {
    var purged := Purged(history, EmployeeModel, e.id);
    FilterConcat(purged, [DeletedMarker(e, user, now)], RowOf(EmployeeModel, e.id));
    FilterNone(purged, RowOf(EmployeeModel, e.id));
    assert Filter([DeletedMarker(e, user, now)], RowOf(EmployeeModel, e.id)) == [DeletedMarker(e, user, now)];
  }

  /** The owner string of a document or permit: `str()` of its employee. */
  function OwnerStr(db: Database, employee: Id): (s: string)
    reads db`employees
    requires db.HasEmployee(employee)
  {
    EmployeeStr(db.EmployeeById(employee).value)
  }

  /** `document.save()` on an existing row: diff, write, then the
      notification cleanup hook. The hook makes the intended expiry
      comparison (`Signals.Stale`); the comparison as written raises
      `AttributeError` after the write for a dated document of an employee
      who is not dismissed (`Signals.ExpiryHookAsWritten`). */
  method SaveDocument(db: Database, slot: ActorSlot, t: ThreadId, d: Document,
                      changedBy: Option<UserId>, writeOk: bool, today: Date, now: Timestamp)
    returns (r: Result<Id, string>)
    requires db.Valid() && Valid(today) && today.year < MaxYear
    requires db.HasEmployee(d.employee) && OptValid(d.validUntil)
    requires db.DocumentById(d.id).Some? ==> OptValid(db.DocumentById(d.id).value.validUntil)
    modifies db`documents, db`history, db`notifications
    ensures db.Valid()
    ensures old(db.DocumentById(d.id)).None? ==> r == Err("DoesNotExist") && unchanged(db)
    ensures old(db.DocumentById(d.id)).Some? ==>
      var stored := old(db.DocumentById(d.id)).value;
      db.history == old(db.history)
        + DocumentDiff(stored, old(OwnerStr(db, stored.employee)), d, old(OwnerStr(db, d.employee)), Actor(changedBy, slot.Get(t)), now)
      && (!writeOk ==>
           r.Err? && db.documents == old(db.documents) && db.notifications == old(db.notifications))
      && (writeOk ==>
           r == Ok(d.id)
           && db.documents == Update(old(db.documents), IndexBy(old(db.documents), DocumentKey, d.id).value, d)
           && db.notifications == (if Stale(d.validUntil, old(db.EmployeeDismissed(d.employee)), today)
                                   then AfterDocumentDeleted(old(db.notifications), d.id) else old(db.notifications)))
  {
    var stored := db.DocumentById(d.id);
    if stored.None? {
      return Err("DoesNotExist");
    }
    r := SaveStoredDocument(db, slot, t, stored.value, d, changedBy, writeOk, today, now);
  }

  /** The part of `document.save()` after the stored row was found. */
  method SaveStoredDocument(db: Database, slot: ActorSlot, t: ThreadId, stored: Document, d: Document,
                            changedBy: Option<UserId>, writeOk: bool, today: Date, now: Timestamp)
    returns (r: Result<Id, string>)
    requires db.Valid() && Valid(today) && today.year < MaxYear
    requires db.HasEmployee(d.employee) && OptValid(d.validUntil)
    requires db.DocumentById(d.id) == Some(stored) && OptValid(stored.validUntil)
    modifies db`documents, db`history, db`notifications
    ensures db.Valid()
    ensures db.history == old(db.history)
      + DocumentDiff(stored, old(OwnerStr(db, stored.employee)), d, old(OwnerStr(db, d.employee)), Actor(changedBy, slot.Get(t)), now)
    ensures !writeOk ==> r.Err? && db.documents == old(db.documents) && db.notifications == old(db.notifications)
    ensures writeOk ==>
      r == Ok(d.id)
      && db.documents == Update(old(db.documents), IndexBy(old(db.documents), DocumentKey, d.id).value, d)
      && db.notifications == (if Stale(d.validUntil, old(db.EmployeeDismissed(d.employee)), today)
                              then AfterDocumentDeleted(old(db.notifications), d.id) else old(db.notifications))
  {
    DocumentRefs(db, stored);
    var storedOwner := OwnerStr(db, stored.employee);
    var owner := OwnerStr(db, d.employee);
    DocumentFieldsAlign(stored, storedOwner, d, owner);
    var _ := MixinSave(db, slot, t, DocumentModel, Some(d.id), Some(DocumentFields(stored, storedOwner)), DocumentFields(d, owner), changedBy, now);
    if !writeOk {
      return Err("IntegrityError");
    }
    WriteDocument(db, d, today);
    return Ok(d.id);
  }

  /** The row write of a document update, then its post-save receiver. */
  method WriteDocument(db: Database, d: Document, today: Date)
    requires db.Valid() && Valid(today) && today.year < MaxYear
    requires db.HasDocument(d.id) && db.HasEmployee(d.employee)
    modifies db`documents, db`notifications
    ensures db.Valid()
    ensures db.documents == Update(old(db.documents), IndexBy(old(db.documents), DocumentKey, d.id).value, d)
    ensures db.notifications == (if Stale(d.validUntil, old(db.EmployeeDismissed(d.employee)), today)
                                 then AfterDocumentDeleted(old(db.notifications), d.id) else old(db.notifications))
  {
    var i := IndexBy(db.documents, DocumentKey, d.id).value;
    db.ReplaceDocuments(Update(db.documents, i, d));
    DocumentSaved(db, d, today);
  }
}
