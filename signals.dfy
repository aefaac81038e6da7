/** The post-save and post-delete receivers of apps/main/signals.py: the
    "created" and "deleted" History markers of an Employee, the cache flush
    on every Employee save or delete, and the removal of notifications that
    no longer apply after an Employee, Document or WorkPermit is saved. */
module Signals {

  import opened Outcomes
  import opened Dates
  import opened Seqs
  import opened Entities
  import opened Db
  import opened Notices
  import opened Cache
  import opened ChangeUser
  import opened Reconcile

  /** The field name of whole-object History rows. */
  const AllFields: string := "__all__"

  /** The row `log_post_save` writes for a new employee. */
  function CreatedMarker(id: Id, user: Option<UserId>, now: Timestamp): HistoryEntry {
    HistoryEntry(EmployeeModel, id, AllFields, None, None, Some(Created), user, now)
  }

  /** The row `log_post_delete` writes: the old value is `str(employee)`. */
  function DeletedMarker(e: Employee, user: Option<UserId>, now: Timestamp): HistoryEntry {
    HistoryEntry(EmployeeModel, e.id, AllFields, Some(EmployeeStr(e)), None, Some(Deleted), user, now)
  }

  /** The deleted marker is a whole-object row of that employee, recording its
      display name, and differs from every field-level row. */
  lemma DeletedMarkerShape(e: Employee, user: Option<UserId>, now: Timestamp)
    ensures var h := DeletedMarker(e, user, now);
      h.objectId == e.id && h.model == EmployeeModel && h.fieldName == AllFields
      && h.oldValue == Some(e.firstName + " " + e.lastName) && h.action == Some(Deleted)
      && ParseAction("deleted") == h.action
  {
  }

  /** `log_post_save`: only a creation is logged, by the ambient user. */
  method LogPostSave(db: Database, slot: ActorSlot, t: ThreadId, id: Id, created: bool, now: Timestamp)
    modifies db`history
    ensures created ==> db.history == old(db.history) + [CreatedMarker(id, slot.Get(t), now)]
    ensures !created ==> db.history == old(db.history)
  {
    if created {
      var user := slot.Get(t);
      db.history := db.history + [HistoryEntry(EmployeeModel, id, AllFields, None, None, Some(Created), user, now)];
    }
  }

  /** `log_post_delete`: always one "deleted" row, by the ambient user. */
  method LogPostDelete(db: Database, slot: ActorSlot, t: ThreadId, e: Employee, now: Timestamp)
    modifies db`history
    ensures db.history == old(db.history) + [DeletedMarker(e, slot.Get(t), now)]
  {
    var user := slot.Get(t);
    db.history := db.history + [HistoryEntry(EmployeeModel, e.id, AllFields, Some(EmployeeStr(e)), None, Some(Deleted), user, now)];
  }

  /** `invalidate_employee_cache`: the whole cache goes, edit locks included. */
  method InvalidateEmployeeCache(cache: Store)
    modifies cache
    ensures forall key, now :: cache.Get(key, now).None?
  {
    cache.Clear();
  }

  // ------------------------------------------------------ notification cleanup

  /** Rows that survive a filter of the table keep resolving. */
  lemma KeptRefsValid(db: Database, rows: seq<Notification>)
    requires db.Valid() && forall n :: n in rows ==> n in db.notifications
    ensures forall n :: n in rows ==> db.NotificationRefsValid(n)
  {
  }

  /** `delete_notification_working_status`: a dismissed employee loses every
      notification; any other employee keeps them. */
  method DeleteNotificationsOfDismissed(db: Database, e: Employee)
    requires db.Valid()
    modifies db`notifications
    ensures db.Valid()
    ensures forall n :: n in db.notifications ==> n in old(db.notifications)
    ensures IsDismissed(e) ==> db.notifications == AfterEmployeeDeleted(old(db.notifications), e.id)
    ensures !IsDismissed(e) ==> db.notifications == old(db.notifications)
  {
    if e.workingStatus == Some(Dismissed) {
      var rows := AfterEmployeeDeleted(db.notifications, e.id);
      KeptRefsValid(db, rows);
      db.SetNotifications(rows);
    }
  }

  /** Whether a saved Document or WorkPermit loses its notifications: no
      expiry, a dismissed owner, or an expiry past the two-month horizon.
      This is the evidently intended rule; see `ExpiryHookAsWritten`. */
  predicate Stale(expiry: Option<Date>, ownerDismissed: bool, today: Date)
    requires Valid(today) && today.year < MaxYear
  {
    expiry.None? || ownerDismissed || Before(Horizon(today), expiry.value)
  }

  /** The cleanup never removes a notification the reconciliation would
      create: an expiry inside the window of a working employee is not stale,
      and neither is an expiry already past. */
  lemma StaleComplementsWindow(expiry: Option<Date>, ownerDismissed: bool, today: Date)
    requires Valid(today) && today.year < MaxYear
    ensures InWindow(expiry, today) && !ownerDismissed ==> !Stale(expiry, ownerDismissed, today)
    ensures expiry.Some? && Valid(expiry.value) && Before(expiry.value, today) && !ownerDismissed
      ==> !Stale(expiry, ownerDismissed, today)
    ensures Stale(expiry, ownerDismissed, today) && expiry.Some? && Valid(expiry.value) && !ownerDismissed
      ==> !InWindow(expiry, today)
  {
    var h := Horizon(today);
    if expiry.Some? && Valid(expiry.value) && !ownerDismissed {
      var x := expiry.value;
      if NotAfter(x, h) {
        NotAfterOrdinal(x, h);
        assert !Before(h, x);
      }
      if Before(x, today) {
        NotAfterOrdinal(today, h);
        assert !Before(h, x);
      }
    }
  }

  /** `delete_notifications_if_document_valid`, with the horizon comparison
      made on dates. */
  method DocumentSaved(db: Database, d: Document, today: Date)
    requires db.Valid() && Valid(today) && today.year < MaxYear
    modifies db`notifications
    ensures db.Valid()
    ensures forall n :: n in db.notifications ==> n in old(db.notifications)
    ensures Stale(d.validUntil, db.EmployeeDismissed(d.employee), today)
      ==> db.notifications == AfterDocumentDeleted(old(db.notifications), d.id)
    ensures !Stale(d.validUntil, db.EmployeeDismissed(d.employee), today)
      ==> db.notifications == old(db.notifications)
  {
    if d.validUntil.None? || db.EmployeeDismissed(d.employee) || Before(Horizon(today), d.validUntil.value) {
      var rows := AfterDocumentDeleted(db.notifications, d.id);
      KeptRefsValid(db, rows);
      db.SetNotifications(rows);
    }
  }

  /** `delete_notifications_if_permit_valid`, the same rule for a permit. */
  method PermitSaved(db: Database, p: WorkPermit, today: Date)
    requires db.Valid() && Valid(today) && today.year < MaxYear
    modifies db`notifications
    ensures db.Valid()
    ensures forall n :: n in db.notifications ==> n in old(db.notifications)
    ensures Stale(p.endDate, db.EmployeeDismissed(p.employee), today)
      ==> db.notifications == AfterPermitDeleted(old(db.notifications), p.id)
    ensures !Stale(p.endDate, db.EmployeeDismissed(p.employee), today)
      ==> db.notifications == old(db.notifications)
  {
    if p.endDate.None? || db.EmployeeDismissed(p.employee) || Before(Horizon(today), p.endDate.value) {
      var rows := AfterPermitDeleted(db.notifications, p.id);
      KeptRefsValid(db, rows);
      db.SetNotifications(rows);
    }
  }

  // ------------------------------------------ the expiry comparison as written

  /** What the instance holds in its expiry attribute when the hook runs: a
      `date` after a form or a reload, or a `datetime` when the caller
      assigned one (as the CSV import does), with its calendar date. */
  datatype HeldExpiry = HeldDate(d: Date) | HeldDateTime(d: Date)

  /** The decision the hook takes as written: `Ok(true)` deletes the
      notifications, `Ok(false)` keeps them, and `.date()` on a plain `date`
      raises `AttributeError`. The hook runs inside the save, so the
      exception also undoes the row write when the save runs in a
      transaction, as `update_or_create`'s does. */
  function ExpiryHookAsWritten(held: Option<HeldExpiry>, ownerDismissed: bool, today: Date): (r: Result<bool, string>)
    requires Valid(today) && today.year < MaxYear
    ensures r.Err? <==> held.Some? && held.value.HeldDate? && !ownerDismissed
    ensures r.Err? ==> r.error == "AttributeError"
    ensures r.Ok? ==> r.value == Stale(HeldAsDate(held), ownerDismissed, today)
  {
    if held.None? || ownerDismissed then Ok(true)
    else match held.value
      case HeldDate(_) => Err("AttributeError")
      case HeldDateTime(x) => Ok(Before(Horizon(today), x))
  }

  /** The expiry a held value stands for. */
  function HeldAsDate(held: Option<HeldExpiry>): Option<Date> {
    match held
    case None => None
    case Some(HeldDate(x)) => Some(x)
    case Some(HeldDateTime(x)) => Some(x)
  }

  /** As written, saving a document or permit of a working employee whose
      expiry is a plain date (every save from the edit form) fails, whatever
      the date; for a date-time value it agrees with `Stale`. */
  lemma ExpiryHookAsWrittenFails(held: Option<HeldExpiry>, ownerDismissed: bool, today: Date)
    requires Valid(today) && today.year < MaxYear
    ensures held.Some? && held.value.HeldDate? && !ownerDismissed
      ==> ExpiryHookAsWritten(held, ownerDismissed, today).Err?
    ensures (held.None? || held.value.HeldDateTime? || ownerDismissed)
      ==> ExpiryHookAsWritten(held, ownerDismissed, today) == Ok(Stale(HeldAsDate(held), ownerDismissed, today))
  {
  }

  /** Which comparison the Document and WorkPermit hooks make: the one the
      code makes, or the evidently intended one (`Stale`). */
  datatype HookRule = AsWritten | Intended

  /** The hook's decision on a row saved from the edit form, whose expiry
      is always a plain `date`: `Ok(true)` deletes the row's notifications,
      `Ok(false)` keeps them. As written it raises for every dated row of a
      working owner and otherwise deletes. */
  function FormHook(rule: HookRule, expiry: Option<Date>, ownerDismissed: bool, today: Date): (r: Result<bool, string>)
    requires Valid(today) && today.year < MaxYear
    ensures rule == Intended ==> r == Ok(Stale(expiry, ownerDismissed, today))
    ensures rule == AsWritten ==> (r.Err? <==> expiry.Some? && !ownerDismissed)
    ensures rule == AsWritten && r.Err? ==> r.error == "AttributeError"
    ensures rule == AsWritten && r.Ok? ==> r.value
  {
    if rule == Intended then Ok(Stale(expiry, ownerDismissed, today))
    else ExpiryHookAsWritten(if expiry.Some? then Some(HeldDate(expiry.value)) else None, ownerDismissed, today)
  }

  /** A concrete instance: a document valid until 2024-04-10, saved on
      2024-03-01 for a working employee, makes the hook raise. */
  lemma ExpiryHookAsWrittenExample()
    ensures ExpiryHookAsWritten(Some(HeldDate(Date(2024, 4, 10))), false, Date(2024, 3, 1)).Err?
    ensures !Stale(Some(Date(2024, 4, 10)), false, Date(2024, 3, 1))
  {
    var today := Date(2024, 3, 1);
    assert Horizon(today) == Date(2024, 5, 1);
    assert !Before(Date(2024, 5, 1), Date(2024, 4, 10)) by {
      NotAfterOrdinal(Date(2024, 4, 10), Date(2024, 5, 1));
    }
  }
}
