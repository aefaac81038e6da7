# HR office: document-expiry notices, audit trail and edit locks — a Dafny model

This project models the core of an HR web application for a staffing office
(Django back end, plain JavaScript front end). The office keeps employees with
their employment periods, identity documents, work permits, card applications,
contracts, sanepid records and contacts, and:

- warns about documents and work permits that expire within two calendar months
  (a per-employee reconciliation, a nightly creation sweep with its
  management-command twin, and a nightly aging step that counts the days down);
- keeps a field-by-field History ledger of every change, attributed to the user
  of the current request through a per-thread actor slot set by a middleware;
- cleans notifications up from save and delete hooks, and clears the cache on
  every employee change;
- moves employees between working statuses in batches (the nightly dismissal
  task and two maintenance commands);
- guards the employee edit dialog with an advisory lock held in the cache for
  300 seconds;
- runs a small task board whose permissions and status transitions are checked
  on the server;
- validates registrations against single-use invitations, and password changes;
- imports employees from spreadsheet rows, parses form input, builds the
  employee list's filters and ordering, and renders History values for display;
- on the client, reads the CSRF cookie, fills the contact formset, draws task
  cards and their buttons, remembers the sidebar state and keeps per-chat
  unread counters in sync between tabs.

Each source file of the core is one Dafny module. State the source changes in
place is a class: `Db.Database` (tables), `Cache.Store` (the expiring
key-value cache, with an explicit clock), `ChangeUser.ActorSlot` (the
per-thread actor), `Registration.Accounts`, `TaskBoard.Board`, and on the client
`EmployeePage.ContactFormset`, `EmployeePage.EmployeeModal`, `TaskPage.Columns`,
`BasePage.Page` and `ChatWidget.Widget`. Loops of the source are methods with
loop invariants, proved against specification functions whose properties are
lemmas. Pure code (mappers, parsers, predicates) is functions. `today` and
`now` are parameters everywhere. Shared foundations: `Dates` (proleptic
Gregorian dates, day numbers, `relativedelta` month addition, ISO text),
`Text` (decimal text, Python `strip`/`split`, JavaScript `trim`, case mapping),
`Seqs`, `Outcomes` (Option and Result) and `Entities` (the records).

Facts about the code that the model keeps, some of them easy to miss:

- the per-employee notice text has no trailing full stop, while the sweep's and
  the command's texts end with one;
- Django turns a view's exception into an error response, which the middleware
  passes on after clearing the actor slot; only an exception that escapes that
  conversion leaves the slot set;
- the dismissal task selects employees with any ended period, not only their
  latest one;
- an employee's delete purges its History before the "deleted" marker is
  written, so exactly one History row remains for it;
- the reconciliation checks for an existing notice per (document, employee),
  the sweep per document;
- `mark_status` leaves every employee missing from its three id lists as
  "Zwolniony", the value its first pass wrote;
- the chat client's sync with the server expects numbers where the server sends
  `{last_timestamp, total_count}` objects, so it never changes a counter
  (`ChatWidget.SyncWithServerIsInert`);
- every text field of the registration and password-change serializers strips
  surrounding whitespace, so a password is stored without its surrounding
  blanks; the fields the serializers declare themselves (`password`,
  `password2`, `invite_token` and the three password-change fields) follow the
  REST framework's `CharField` defaults, which refuse a blank value except
  where `invite_token` allows it, while the e-mail and the names take their
  blank rule from the user model (`Registration.Blankness`).

## Model

| member | source | states |
|---|---|---|
| Entities.EmployeeStr | apps/main/models.py:138-139 | an employee's text is the first name, one space, then the last name |
| Entities.FullName | apps/main/models.py:142-144 | the full name holds both names and the separating space |
| Entities.FullNameIsSwappedStr | apps/main/models.py:138-144 | the full name is the employee's text with first and last name swapped |
| Entities.ActionCode | apps/main/models.py:27-31 | a history action is stored as one of "created", "updated" and "deleted" |
| Entities.ParseAction | apps/main/models.py:27-31 | a stored text reads as an action exactly when it is one of the three choices |
| Entities.ActionCodeRoundTrip | apps/main/models.py:27-31 | an action's stored code reads back as that action |
| Dates.DaysInMonth | apps/notification/utils.py:20 | a month has 28 to 31 days, and 29 exactly for February of a leap year |
| Dates.OrdinalOrder | apps/notification/utils.py:20-24 | dates compare as their day numbers do |
| Dates.AddMonths | apps/notification/utils.py:20 | `relativedelta(months=n)` moves the month forward by `n`, keeps the day or clamps it to the end of the target month, and gives a real date while the year fits |
| Dates.Horizon | apps/notification/utils.py:20 | the notification horizon is a real date after today |
| Dates.HorizonSpan | apps/notification/utils.py:20 | the two-month window always spans between 59 and 62 days |
| Dates.IsoString | apps/chat/views.py:27 | `isoformat()` of a date is ten characters, `YYYY-MM-DD` |
| Dates.IsoStringFields | apps/chat/views.py:27 | the ISO text's three fields read back as the date's year, month and day |
| Dates.IsoStringInjective | apps/chat/views.py:27 | two dates with the same ISO text are the same date |
| Notices.ParseType | apps/notification/models.py:6-15 | the type column accepts exactly "document" and "work_permit", and an accepted code is the stored text of its type |
| Notices.TypeCodeRoundTrip | apps/notification/models.py:6-15 | storing a notification type and reading it back gives the same type |
| Notices.SubjectStr | apps/notification/models.py:37-39 | the object named in the string form is the document when there is one, else the work permit, else Python's `None` |
| Notices.NotificationStr | apps/notification/models.py:37-39 | `str(notification)` opens with the fixed prefix and the employee's full name |
| Notices.StrPrefersDocument | apps/notification/models.py:37-39 | whenever a document is set, the string form does not depend on the work permit |
| Notices.AfterEmployeeDeleted | apps/notification/models.py:11-13 | deleting an employee keeps exactly the notifications of other employees |
| Notices.AfterDocumentDeleted | apps/notification/models.py:17-23 | deleting a document keeps exactly the notifications that do not point at it |
| Notices.AfterPermitDeleted | apps/notification/models.py:25-31 | deleting a work permit keeps exactly the notifications that do not point at it |
| Notices.CascadeIdempotent | apps/notification/models.py:11-31 | a second cascade delete of the same row removes nothing more |
| Db.Database.DeleteEmployeeCascade | apps/main/models.py:154-205 | deleting an employee removes the employee, every period, document, permit, card, contract and sanepid row of it, and every notification pointing at any of them; all remaining foreign keys still resolve |
| Db.CascadeRefs | apps/notification/models.py:11-31 | after the cascade no remaining notification names the employee or one of its deleted documents or permits |
| Db.SameKeysPreserve | apps/main/models.py:154-205 | rewriting rows in place keeps primary keys distinct and every foreign key that resolved still resolves |
| Cache.Read | apps/main/views.py:124-125 | `cache.get` sees an entry exactly when it exists and its timeout has not run out, and then sees its value |
| Cache.Store.Get | apps/main/views.py:186-187 | a read of the store is the read of its entry table at the given time |
| Cache.Store.Set | apps/main/views.py:194-195 | `cache.set` overwrites the key with the value and the expiry `now + timeout`, touching no other key |
| Cache.Store.Add | apps/main/views.py:583-598 | `cache.add` inserts and reports success exactly when no live entry exists, and otherwise changes nothing |
| Cache.Store.Delete | apps/main/views.py:148-149 | `cache.delete` removes exactly that key |
| Cache.Store.Clear | apps/main/signals.py:41-43 | `cache.clear` drops every entry |
| Cache.ReadBackWithinTimeout | apps/main/views.py:194-195 | a value written with a timeout stays readable exactly until the timeout runs out |
| ChangeUser.ActorSlot.Get | apps/main/utils.py:29-30 | a thread that never set the slot reads nothing; otherwise it reads the last value it set |
| ChangeUser.ActorSlot.Set | apps/main/utils.py:24-27 | a set on one thread overwrites that thread's value, `None` included, and no other thread's value moves |
| Middleware.ActorOf | apps/main/middleware.py:13-16 | the published user is the requester exactly when the requester is authenticated |
| Middleware.Call | apps/main/middleware.py:13-22 | the handler sees the published user and its response comes back unchanged; after a response, including the error response Django makes of a view's exception, the slot is cleared, and only after an exception that escapes that conversion does it still hold the user |
| Signals.LogPostSave | apps/main/signals.py:12-24 | creating an employee appends exactly one "created" row for field `__all__` by the ambient user; a later save appends nothing |
| Signals.DeletedMarkerShape | apps/main/signals.py:27-39 | the deletion marker names the employee's id and `__all__`, holds "first last" as the old value and has action "deleted" |
| Signals.LogPostDelete | apps/main/signals.py:27-39 | deleting an employee appends exactly one deletion marker by the ambient user |
| Signals.InvalidateEmployeeCache | apps/main/signals.py:41-43 | after any employee save or delete no cache key reads back, edit locks included |
| Signals.DeleteNotificationsOfDismissed | apps/main/signals.py:46-50 | saving a "Zwolniony" employee removes all of that employee's notifications; any other save leaves the table as it was; nothing is ever added |
| Signals.StaleComplementsWindow | apps/main/signals.py:53-76 | for a working employee, an expiry inside the creation window is never stale and neither is a past one, so the cleanup never removes what the reconciliation would create |
| Signals.DocumentSaved | apps/main/signals.py:53-63 | saving a document deletes its notifications exactly when it is stale and never adds one |
| Signals.PermitSaved | apps/main/signals.py:66-76 | saving a work permit deletes its notifications exactly when it is stale and never adds one |
| Signals.ExpiryHookAsWrittenFails | apps/main/signals.py:62 | as written, a stored date with an owner still working makes the hook fail on `.date()`; only datetimes, missing values and dismissed owners reach a decision |
| Signals.ExpiryHookAsWrittenExample | apps/main/signals.py:62 | a document valid until 2024-04-10 saved on 2024-03-01 makes the hook as written fail, while the intended rule keeps its notification |
| Signals.ExpiryHookAsWritten | apps/main/signals.py:53-76 | as written, the hook raises `AttributeError` exactly when the held expiry is a `date` and the owner is not dismissed; otherwise it answers the intended staleness of the held value |
| Signals.FormHook | apps/main/signals.py:53-76 | the hook run on a form's plain-date expiry: the intended rule answers `Stale`; the rule as written raises `AttributeError` exactly for a dated expiry of an owner who is not dismissed, and otherwise deletes |
| Audit.PrepareValue | apps/main/models.py:103-112 | `None` becomes "", a boolean "True"/"False", a related row its string form, and text is stripped of surrounding white space |
| Audit.PreparedDateIsIso | apps/main/models.py:103-112 | a date field is logged as its ISO 8601 text |
| Audit.NormalisationIgnoresBlanks | apps/main/models.py:112 | text differing only in surrounding white space normalises to the same value, so such an edit is not logged |
| Audit.NormalisationOfNull | apps/main/models.py:104-107 | `None` and "" normalise alike, and a boolean never normalises like `None` |
| Audit.EmployeeFields | apps/main/models.py:115-134 | an employee has the fourteen concrete fields, each holding a value the normaliser accepts |
| Audit.EmployeeFieldsStatus | apps/main/models.py:130 | changing only the working status changes only that field of the field list |
| Audit.DocumentFields | apps/main/models.py:165-169 | a document has five fields with distinct names |
| Audit.PermitFields | apps/main/models.py:178-181 | a work permit has four fields with distinct names |
| Audit.PeriodFields | apps/main/models.py:153-156 | an employment period has four fields with distinct names, each holding a value the normaliser accepts |
| Audit.CardFields | apps/main/models.py:189-192 | a card submission has four fields with distinct names, each holding a value the normaliser accepts |
| Audit.ContractFields | apps/main/models.py:195-201 | a contract has three fields with distinct names, each holding a value the normaliser accepts |
| Audit.SanepidFields | apps/main/models.py:204-208 | a sanepid record has five fields with distinct names, each holding a value the normaliser accepts |
| Audit.EmployeeFieldsAlign | apps/main/models.py:69-75 | the stored row and the instance are compared field by field, in the same order, under the same names |
| Audit.DocumentFieldsAlign | apps/main/models.py:69-75 | two documents list the same fields in the same order |
| Audit.Actor | apps/main/models.py:63 | the actor is the explicit `changed_by` when given, else the ambient user |
| Audit.Cells | apps/main/models.py:69-89 | the per-field comparison has one entry per field, in field order |
| Audit.DiffSound | apps/main/models.py:69-89 | every logged row is an "updated" row for a field whose normalised old and new values differ, and there are at most as many rows as fields |
| Audit.DiffComplete | apps/main/models.py:69-89 | every non-excluded field whose normalised values differ gets its "updated" row |
| Audit.DiffOnePerField | apps/main/models.py:69-89 | no field is logged twice in one save |
| Audit.DiffUnchanged | apps/main/models.py:80 | saving an unchanged row logs nothing |
| Audit.DiffOnlyAt | apps/main/models.py:69-89 | when only one field differs, the save logs that one field if its normalised value changed and nothing otherwise |
| Audit.WriteDiff | apps/main/models.py:81-89 | the History table grows by exactly the diff rows, in field order |
| Audit.MixinSave | apps/main/models.py:62-91 | a first save (no key) logs nothing, an update of a missing row fails before logging, and otherwise the diff rows by the resolved actor are appended before the row is written |
| Audit.Purged | apps/main/models.py:96-99 | the purge keeps exactly the History rows of other objects |
| Audit.MixinDelete | apps/main/models.py:93-101 | a delete with a key purges that object's History rows; without a key nothing is purged |
| Audit.PurgedIdempotent | apps/main/models.py:96-99 | purging twice removes nothing more |
| Saves.PostSaveEmployee | apps/main/signals.py:12-50 | the Employee post-save receivers together: the creation marker on a first save, a flushed cache, and the notifications of a dismissed employee removed |
| Saves.CreateEmployee | apps/main/models.py:62-91 | a first save appends the row under the next key and only the "created" marker by the ambient user, flushes the cache and applies the dismissal cleanup; a failed write changes nothing |
| Saves.UpdateEmployee | apps/main/models.py:62-91 | an update logs the field diff by the resolved actor, then writes the row in place and runs the receivers; a failed write keeps the diff rows (no transaction) and changes nothing else; a missing row fails before anything is logged |
| Saves.WriteEmployee | apps/main/signals.py:41-50 | the row write of an update replaces only that row, flushes the cache and applies the dismissal cleanup, logging nothing |
| Saves.DeleteEmployee | apps/main/models.py:93-101 | deleting an employee purges its History rows, removes it with all it cascades to, appends one "deleted" marker and flushes the cache |
| Saves.PostDeleteEmployee | apps/main/signals.py:27-43 | the Employee post-delete receivers append one deletion marker and flush the cache |
| Saves.DeleteLeavesOneRow | apps/main/signals.py:27-39 | after an employee is deleted exactly one History row about it remains: the deletion marker |
| Saves.SaveStoredDocument | apps/main/models.py:62-91 | saving over a stored document logs the diff of the stored row against the new one by the resolved actor; a refused write changes nothing else; an accepted one replaces the row in place and deletes its notifications exactly when it is stale |
| Saves.SaveDocument | apps/main/signals.py:53-63 | saving a document logs its diff, writes the row, then deletes its notifications exactly when it is stale; a missing row fails before logging |
| Reconcile.OrDefault | apps/notification/utils.py:36-37 | Python's `value or default`: a present non-empty text is kept, `None` and "" give the default |
| Reconcile.DaysLeft | apps/notification/utils.py:35 | the days left of an expiry inside the window lie between 0 and 62 |
| Reconcile.DocumentMessage | apps/notification/utils.py:36-42 | the per-employee document text ends with ")" after the ISO date, with no final period |
| Reconcile.PermitMessage | apps/notification/utils.py:65-71 | the per-employee permit text ends with ")" after the ISO date, with no final period |
| Reconcile.DocumentMessageFits | apps/notification/models.py:33 | the document text is 53 or 54 characters plus its type and number, so it fits the 255-character column whenever those two together have at most 201 characters |
| Reconcile.PermitMessageFits | apps/notification/models.py:33 | the permit text is 51 or 52 characters plus its type, so it fits the column whenever the type has at most 203 characters |
| Reconcile.DocumentsInWindow | apps/notification/utils.py:23-27 | the documents considered are exactly the employee's documents with an expiry in [today, today + 2 months] |
| Reconcile.PermitsInWindow | apps/notification/utils.py:53-57 | the permits considered are exactly the employee's permits with an end date in the same window |
| Reconcile.NewDocumentNotice | apps/notification/utils.py:44-50 | a created document notification has type "document", points at the document and the employee only, and holds the days left, between 0 and 62 |
| Reconcile.NewPermitNotice | apps/notification/utils.py:73-79 | a created permit notification has type "work_permit", points at the permit and the employee only, and holds the days left, between 0 and 62 |
| Reconcile.AfterDocumentsCovers | apps/notification/utils.py:29-50 | after the document loop every in-window document of the employee has its notification |
| Reconcile.AfterPermitsCovers | apps/notification/utils.py:59-79 | after the permit loop every in-window permit of the employee has its notification |
| Reconcile.AfterDocumentsCovered | apps/notification/utils.py:31-34 | when every document already has its notification the loop inserts nothing |
| Reconcile.AfterPermitsCovered | apps/notification/utils.py:61-64 | when every permit already has its notification the loop inserts nothing |
| Reconcile.AfterDocumentsUnique | apps/notification/utils.py:31-34 | the document loop keeps at most one notification per (document, employee) and per (permit, employee) |
| Reconcile.AfterPermitsUnique | apps/notification/utils.py:61-64 | the permit loop keeps the same uniqueness |
| Reconcile.AfterDocumentsCount | apps/notification/utils.py:29-50 | with no prior notifications for distinct documents, the loop inserts exactly one per document |
| Reconcile.AfterPermitsCount | apps/notification/utils.py:59-79 | with no prior notifications for distinct permits, the loop inserts exactly one per permit |
| Reconcile.AfterDocumentsPrefix | apps/notification/utils.py:29-50 | the loop only appends: the old table is a prefix of the new one, which grows by at most one row per document |
| Reconcile.AfterPermitsPrefix | apps/notification/utils.py:59-79 | the same for the permit loop |
| Reconcile.ReconciledExtends | apps/notification/utils.py:16-79 | `Reconciled`, the table after `check_and_create_notifications(e)`: a dismissed employee changes nothing; otherwise existing rows are kept unchanged and every new row is created from an in-window document or permit of the employee |
| Reconcile.CreatedDaysLeftBounded | apps/notification/utils.py:35 | every created notification belongs to the employee and has 0 <= days_left <= 62 |
| Reconcile.ReconciledCovers | apps/notification/utils.py:19-79 | for a working employee, every in-window document and permit ends up with a notification |
| Reconcile.ReconciledIdempotent | apps/notification/utils.py:31-34 | a second call on the same data creates nothing |
| Reconcile.ReconciledKeepsUnique | apps/notification/utils.py:31-34 | at most one notification per (document, employee) and per (permit, employee) is kept |
| Reconcile.ReconciledOnEmptyTable | apps/notification/test_properties.py:156-177 | on an empty table the number created is the number of in-window documents plus in-window permits |
| Reconcile.CheckAndCreateNotifications | apps/notification/utils.py:8-79 | the two loops leave the notification table equal to the reconciled table of the old one, with all foreign keys resolving |
| Reconcile.VisitDocument | apps/notification/utils.py:29-50 | one document step inserts its notification exactly when none exists for (document, employee) |
| Reconcile.VisitPermit | apps/notification/utils.py:59-79 | one permit step inserts its notification exactly when none exists for (permit, employee) |
| Reconcile.CreateDocumentNotices | apps/notification/utils.py:23-50 | the document loop's effect is the specification's insertion for the in-window documents |
| Reconcile.CreatePermitNotices | apps/notification/utils.py:53-79 | the permit loop's effect is the specification's insertion for the in-window permits |
| Sweep.SweptDocuments | apps/notification/tasks.py:17-25 | the sweep selects exactly the documents with an expiry in the inclusive window, without any notification yet, whose employee is not "Zwolniony" |
| Sweep.SweptPermits | apps/notification/tasks.py:27-35 | the same selection for work permits |
| Sweep.BatchDocumentNotice | apps/notification/tasks.py:37-49 | a batch document notification points at the document and its employee only, with type "document" and 0 <= days_left <= 62 |
| Sweep.BatchPermitNotice | apps/notification/tasks.py:51-63 | a batch permit notification points at the permit and its employee only, with type "work_permit" and 0 <= days_left <= 62 |
| Sweep.BatchDiffersByPeriod | apps/notification/tasks.py:43-46 | a batch row equals the per-employee row except that its message has one more character, a final ".", which the per-employee text lacks |
| Sweep.DocumentBatch | apps/notification/tasks.py:37-49 | the document list has one notification per selected document, in the same order |
| Sweep.PermitBatch | apps/notification/tasks.py:51-63 | the permit list has one notification per selected permit, in the same order |
| Sweep.CheckExpiringDocuments | apps/notification/tasks.py:12-67 | one bulk insert leaves the table equal to the swept table, and the two list lengths are the numbers of selected documents and permits |
| Sweep.CommandReport | apps/main/management/commands/notification.py:68-72 | the report line opens with "Created notifications: " |
| Sweep.NotificationCommand | apps/main/management/commands/notification.py:13-72 | the command makes the same insertion as the sweep and reports the numbers of document and permit rows it inserted |
| Sweep.SweptLayout | apps/notification/tasks.py:65-67 | old rows stay in place, then come the document rows in selection order, then the permit rows, so the table grows by exactly the two counts |
| Sweep.SweptCoversDocuments | apps/notification/tasks.py:17-25 | after the sweep every in-window document of a working employee has a notification |
| Sweep.SweptCoversPermits | apps/notification/tasks.py:27-35 | after the sweep every in-window permit of a working employee has a notification |
| Sweep.SweepIdempotent | apps/notification/tasks.py:21-23 | a second sweep on unchanged data selects nothing and leaves the table as it is |
| Sweep.AgedMessage | apps/notification/tasks.py:89 | the aged text always opens with "Документ " |
| Sweep.AgedMessageOfDocument | apps/notification/tasks.py:80-89 | a row with a document shows that document's type (else "Невідомий") and number (else "Не вказано") and the new days left |
| Sweep.AgedMessageOfPermit | apps/notification/tasks.py:80-89 | a row with only a permit shows the permit's type (else "Невідомий") and "Не вказано" as the number |
| Sweep.AgedMessageOfNothing | apps/notification/tasks.py:80-89 | a row with neither shows "Невідомий" and "Не вказано" |
| Sweep.AgeOne | apps/notification/tasks.py:78-90 | aging a row with more than one day left takes exactly one day off and changes only days_left and message |
| Sweep.AgedFailsOnNull | apps/notification/tasks.py:78 | the aging fails exactly when some row has no day count |
| Sweep.AgedRows | apps/notification/tasks.py:77-98 | `Aged`, the table the aging leaves, holds exactly the aged forms of the rows with more than one day left; rows with one day or less are gone and nothing is created |
| Sweep.AgedConcat | apps/notification/tasks.py:77-92 | aging visits the rows one by one, so aging two runs of rows is aging each in turn |
| Sweep.DecreaseDaysLeft | apps/notification/tasks.py:70-98 | the loop with its bulk update and bulk delete leaves the aged table, and a row with no day count leaves the table untouched |
| Sweep.SweptAges | apps/notification/tasks.py:37-63 | the rows the sweep adds always carry a day count, so they never make the aging fail |
| Sweep.SweptRowsOfDocument | apps/notification/tasks.py:37-49 | a selected document gets its batch notification and no other row for it |
| Sweep.SameMorning | core/settings.py:123-130 | with creation at 01:00 and aging at 01:05, a document swept with one day or less to go loses its new notification the same morning; one with more keeps it, one day shorter |
| StatusBatch.StatusTextPrepared | apps/main/tasks.py:35 | the prior status logged by the task is the mixin's normalised value of the status, `None` giving "" |
| StatusBatch.StatusOnlyDiff | apps/main/models.py:69-89 | an audited save that changes only the working status logs exactly the one status row the task writes by hand |
| StatusBatch.SelectedForDismissal | apps/main/tasks.py:24-31 | the task selects exactly the employees, not yet "Zwolniony", with any employment period that ended strictly before today |
| StatusBatch.AfterDismissal | apps/main/tasks.py:41 | the bulk update changes only working statuses: an employee with an ended period becomes "Zwolniony", every other one keeps its status |
| StatusBatch.DismissalRows | apps/main/tasks.py:48-59 | one "updated" row per selected employee, in selection order, with field working_status, the employee's own prior status, new value "Zwolniony" and user 1 |
| StatusBatch.PriorStatuses | apps/main/tasks.py:33-39 | the collected data pairs each selected employee's id with its normalised prior status |
| StatusBatch.BulkDismiss | apps/main/tasks.py:41 | the employee table becomes the dismissal result, with no History row, no notification cleanup and no cache flush |
| StatusBatch.BulkCreateHistory | apps/main/tasks.py:61 | the History table grows by exactly the given rows |
| StatusBatch.MarkWorkingStatus | apps/main/tasks.py:20-61 | the statuses are rewritten; then with user 1 present the dismissal rows are logged, and without it the task fails with the statuses already rewritten and nothing logged |
| StatusBatch.DismissalIdempotent | apps/main/tasks.py:29-31 | a second same-day run selects nothing, logs nothing and rewrites nothing |
| StatusBatch.DismissalRowsOnePerEmployee | apps/main/tasks.py:48-59 | no employee gets two dismissal rows, and every row names an employee of the table |
| StatusBatch.StatusTextOfLabel | apps/main/models.py:116-121 | each of the four status labels is logged as itself |
| StatusBatch.DismissalRowIsAuditRow | apps/main/models.py:69-89 | the row the task writes for an employee is exactly the row an audited save as user 1 would log, and an already dismissed employee gets none either way |
| StatusBatch.WithStatus | apps/main/management/commands/mark_status.py:11-12 | a status save changes only the status and the update stamp |
| StatusBatch.SaveStatus | apps/main/management/commands/mark_status.py:11-12 | one `employee.save()` with a new status writes that row, logs its status diff, flushes the cache and clears the notifications of a dismissed employee |
| StatusBatch.Retargeted | apps/main/management/commands/mark_status.py:10-12 | a pass of status saves keeps the table's length |
| StatusBatch.RetargetedStep | apps/main/management/commands/mark_status.py:17-24 | each step of a pass rewrites exactly the next employee |
| StatusBatch.SaveStatuses | apps/main/management/commands/mark_status.py:10-12 | a loop of saves leaves each employee with its target status and logs each status move in order |
| StatusBatch.AfterSavesMembers | apps/main/signals.py:46-50 | after a pass of saves exactly the notifications of employees saved as "Zwolniony" are gone |
| StatusBatch.StatusLogComplete | apps/main/models.py:69-89 | every employee whose status moves gets its status row |
| StatusBatch.StatusLogSound | apps/main/models.py:69-89 | every logged row is the status move of some saved employee |
| StatusBatch.FinalStatus | apps/main/management/commands/mark_status.py:17-24 | the final status is always one of the four labels |
| StatusBatch.FinalStatusByList | apps/main/management/commands/mark_status.py:14-24 | the three id lists are disjoint; a green id gets "Pracujący", a blue one "Umowa o prace", a white one "Zmiana stanowiska", and an unlisted one stays "Zwolniony" |
| StatusBatch.MarkStatus | apps/main/management/commands/mark_status.py:8-24 | every employee is saved twice, first as "Zwolniony" (the table `FirstLoop` leaves), then with its final status; both passes are logged through the audited save path and their notification cleanups applied |
| StatusBatch.MarkStatusRows | apps/main/management/commands/mark_status.py:17-24 | after the command every employee has its final status and nothing else about it changed |
| StatusBatch.MarkStatusClearsNotifications | apps/main/management/commands/mark_status.py:11-12 | the first pass dismisses everyone, so no notification survives |
| StatusBatch.MarkStatusSecondLog | apps/main/management/commands/mark_status.py:17-24 | the second pass logs exactly one row per listed employee, from "Zwolniony" to its final status |
| StatusBatch.FinalStatusText | apps/main/management/commands/mark_status.py:17-24 | the final statuses are logged as themselves |
| StatusBatch.SecondLoopMoves | apps/main/management/commands/mark_status.py:17-24 | in the second pass a status moves exactly for a listed employee |
| StatusBatch.SecondLoopRow | apps/main/management/commands/mark_status.py:17-24 | the row of a second-pass move goes from "Zwolniony" to the final status |
| StatusBatch.ColorStatusInvertsChoices | apps/main/management/commands/change_color.py:10-15 | the colour map is exactly the inverse of the status choices |
| StatusBatch.FirstUnmapped | apps/main/management/commands/change_color.py:18 | the position where the loop stops: every employee before it has a colour code, and the one there has none |
| StatusBatch.Recolours | apps/main/management/commands/change_color.py:16-19 | one target status per relabelled employee |
| StatusBatch.ChangeColor | apps/main/management/commands/change_color.py:8-19 | employees are relabelled and saved in turn up to the first status that is not a code, which raises `KeyError` with those before it already saved |
| StatusBatch.ChangeColorRows | apps/main/management/commands/change_color.py:16-19 | a run without error gives every employee the label of its code |
| StatusBatch.ChangeColorOnce | apps/main/management/commands/change_color.py:18 | after a complete run on a non-empty table, a second run fails on the first employee |
| StatusBatch.LabelsAreNotCodes | apps/main/management/commands/change_color.py:10-15 | no label is itself a colour code |
| EditLock.LockKey | apps/main/views.py:559 | the lock key is "employee_edit_lock:" followed by the id text |
| EditLock.LockKeyInjective | apps/main/views.py:559 | two employee ids share a lock key exactly when they are equal |
| EditLock.LockKeySpellings | apps/main/views.py:186 | an id posted as a number, as a digit string, or taken from the URL names the same lock |
| EditLock.Claimed | apps/main/views.py:567 | a claimed lock holds the caller's id and expires 300 seconds after the claim |
| EditLock.LockKeyStep | apps/main/views.py:562-598 | the lock decision either grants, writing the caller's lock with a fresh 300-second timeout, or refuses with 423 and leaves the cache unchanged |
| EditLock.LockEmployee | apps/main/views.py:545-603 | `lock_employee` answers and changes the cache as `Lock` says: the lock decision on the id's key, with 400 for a non-POST request or a missing id and 500 for an unreadable body |
| EditLock.LockHeldForTimeout | apps/main/views.py:583-587 | a granted lock reads back as the caller's for 300 seconds and then lapses |
| EditLock.LockExclusive | apps/main/views.py:572-580 | while one user's lock is live, another user's lock request is refused and changes nothing |
| EditLock.LockLapses | apps/main/views.py:583-587 | once the timeout has run out, another user's request is granted |
| EditLock.LockRefresh | apps/main/views.py:566-569 | the holder's own request succeeds and restarts the 300-second timeout |
| EditLock.LockKeyStepLocal | apps/main/views.py:562-598 | a lock request touches no other cache key |
| EditLock.UnlockKeyStep | apps/main/views.py:621-636 | an unlock always answers 200 and either deletes the key or leaves the cache unchanged |
| EditLock.UnlockEmployee | apps/main/views.py:607-642 | `unlock_employee` answers and changes the cache as `Unlock` says: the unlock decision on the id's key, with 400 for a non-POST request or a missing id and 500 for an unreadable body |
| EditLock.UnlockReleases | apps/main/views.py:625-628 | the holder's unlock deletes the key, after which any user's lock request is granted |
| EditLock.UnlockByOtherKeeps | apps/main/views.py:633-636 | another user's unlock leaves the lock in place and answers success false with its message |
| EditLock.OpenEditForm | apps/main/views.py:184-195 | opening the edit form refuses while another user's lock is live and otherwise overwrites the key with the caller's lock by a plain set |
| EditLock.UpdateEmployee | apps/main/views.py:119-166 | an update of a missing employee is refused first, another user's live lock refuses it next, an invalid form changes nothing; once the employee row is saved its hook has emptied the whole cache, lock included, whether or not the later saves fail, and a row that failed to save leaves the cache as it was |
| EditLock.OpenEditFormOverwrites | apps/main/views.py:194-195 | after the form opens, the lock is the opener's for the next 300 seconds whatever was stored before |
| EditLock.ParseOrdering | apps/main/views.py:279-283 | the ordering info always has exactly the three keys last_name, start_date and end_date |
| EditLock.ParseOrderingActive | apps/main/views.py:285-297 | an entry is active exactly when the ordering, stripped of leading "-", names it, and then its direction is "desc" exactly when the ordering starts with "-" |
| EditLock.ParseOrderingSingle | apps/main/views.py:285-297 | at most one entry is active |
| TaskBoard.StatusCode | apps/main/models.py:237-241 | a task status is stored as "todo", "in_progress" or "completed" |
| TaskBoard.ParseStatus | apps/main/models.py:237-251 | the status column accepts exactly the three codes |
| TaskBoard.StatusCodeRoundTrip | apps/main/models.py:237-251 | a status and its stored code convert into each other |
| TaskBoard.CanTakeCases | apps/main/models.py:290-299 | `can_take` holds exactly when the task is unassigned or assigned to the user, and it is todo or in progress taken by the user |
| TaskBoard.Apply | api/views.py:342-362 | an accepted change keeps the id, creator, taker and timestamps, stamps the update time, and takes the new status when one is given and keeps the old one otherwise |
| TaskBoard.Board.PerformUpdate | api/views.py:305-368 | an update of a missing task fails with not-found; otherwise the task becomes the outcome of the update rules (`UpdateOutcome`) when they accept, and the table is unchanged when they refuse |
| TaskBoard.Board.PerformDestroy | api/views.py:370-380 | a delete succeeds exactly for an existing task and an authenticated superuser, with distinct refusals for a missing task, an anonymous caller and a non-superuser; only that task is removed |
| TaskBoard.NonAuthorChangesOnlyStatus | api/views.py:317-320 | an accepted update by someone other than the creator sends only the status and changes no other field of the task |
| TaskBoard.TakeRule | api/views.py:327-345 | a move to in_progress is accepted exactly when the caller may edit (or sends only the status), the task is todo, not taken by someone else and not assigned to someone else; it then records the caller as taker at that time |
| TaskBoard.TakeAgreesWithCanTake | apps/main/models.py:290-299 | an accepted take is one `can_take` allows, and an untaken todo task the user can take is accepted |
| TaskBoard.NoRetake | api/views.py:332-333 | the taker of an in-progress task cannot take it again, though `can_take` holds for them |
| TaskBoard.InProgressFrozen | api/views.py:307 | an update of an in-progress task that leaves the status out, or sends in_progress, is always refused |
| TaskBoard.TakeExclusive | api/views.py:329-336 | once one user has taken a task, another user's take is refused |
| TaskBoard.CompleteUnconditional | api/views.py:347-348 | completing needs no current status or taker, and stamps the completion time |
| TaskBoard.ReleaseByAnyone | api/views.py:350-358 | moving an in-progress task back to todo clears the taker and the take time, whoever asks, and unlocks it |
| TaskBoard.AssigneeOf | api/views.py:272-276 | the filter value "me" means the caller's id; any other value is accepted exactly when Python's `int()` reads it, and then means that integer; otherwise the lookup raises `ValueError` |
| TaskBoard.ListTasks | api/views.py:270-277 | with no filter the list is all tasks; with a readable one it is exactly the tasks assigned to that id; an unreadable one is the `ValueError` |
| TaskBoard.ListMeIsOwnId | api/views.py:274-275 | filtering by "me" equals filtering by the caller's own id |
| TaskBoard.ListNegativeIsEmpty | api/views.py:276 | a value `int()` reads as negative is no error and selects no task |
| TaskBoard.AssigneeSpellings | api/views.py:276 | " 12", "+12", "1_000" and Arabic-Indic "١٢" all select user 12, "-1" is read as -1, and "1__0" and "12_" are refused |
| Text.PythonIntRoundTrip | api/views.py:276 | `int()` reads back the decimal text of every integer, so an id written by the client is read as itself |
| Text.PythonIntIgnoresBlanks | api/views.py:276 | a blank before or after the value does not change what `int()` reads |
| Text.PythonIntDigits | api/views.py:276 | a run of ASCII digits, with or without a leading minus, reads as its decimal value |
| Text.PythonIntSigns | api/views.py:276 | `int()` accepts a leading plus or minus sign |
| Text.PythonIntUnderscores | api/views.py:276 | single underscores between digits are accepted, while a doubled or trailing underscore is a `ValueError` |
| Text.PythonIntArabicIndic | api/views.py:276 | the decimal digits of other scripts are read too, here Arabic-Indic |
| TaskBoard.ShownFlags | api/serializers.py:233-255 | the flags are the model's predicates for an authenticated requester; without one, edit and take are true and delete false |
| TaskBoard.DeleteFlagMatchesEndpoint | api/serializers.py:250-255 | the delete flag is shown exactly to the users the delete endpoint accepts |
| TaskBoard.FirstUser | api/serializers.py:280-282 | `User.objects.first()` is the smallest user id, and nothing for an empty table |
| TaskBoard.CreatorOf | api/serializers.py:273-283 | the creator is the authenticated requester, else the first user |
| TaskBoard.AvailableTasks | apps/main/context_processors.py:4-12 | a superuser sees exactly the completed tasks, another user exactly the tasks assigned to them, an anonymous user none |
| TaskBoard.ExpiredDocs | apps/main/context_processors.py:15-19 | an authenticated user sees every notification, an anonymous user none |
| Registration.CharField | api/serializers.py:22-28 | a text field is accepted exactly when present and, unless blanks are allowed, not blank after stripping; the accepted value is the stripped text, and a refusal says "required" for a missing key and "blank" otherwise |
| Registration.SignUpFieldErrors | api/serializers.py:22-37 | no field-level error is reported exactly when the e-mail, password, confirmation, first name and last name are all present, the password and confirmation are not blank, the e-mail and names are not blank unless the user model allows it, and the stripped password passes the validators |
| Registration.SignUpChecks | api/serializers.py:39-62 | `validate` accepts exactly equal passwords, a non-empty known token, an unexpired invite and an e-mail equal to the invite's ignoring case, and reports exactly one error otherwise |
| Registration.ValidateSignUp | api/serializers.py:21-62 | an accepted sign-up has the e-mail, both passwords and both names present, the passwords not blank and the e-mail and names not blank unless the user model allows it, a stripped password that passes the validators and equals the stripped confirmation, a known unexpired invite token and a stripped e-mail equal to the invite's ignoring case; it hands on the stripped values, names included; a refusal always names at least one error |
| Registration.SignUpComplete | api/serializers.py:21-62 | every sign-up meeting those conditions on the stripped values, with both names present (and not blank where the user model refuses blanks), is accepted |
| Registration.MissingFieldReported | api/serializers.py:22-25 | a missing or blank password is reported under "password" as required or blank, and no invite error is reported with it |
| Registration.MissingNameReported | api/serializers.py:31-36 | a body without `first_name` is refused with "This field is required." under `first_name`, and one with a blank `first_name` where the user model refuses blank names with "This field may not be blank.", whatever the other fields hold |
| Registration.BlankNameStoredEmpty | api/serializers.py:31-36 | where the user model allows a blank first name, a sign-up accepted with some first name is accepted with a blank one too, and hands on the first name "" with everything else unchanged |
| Registration.PaddedPasswordStripped | api/serializers.py:22-25 | a password typed with a trailing blank is judged exactly as the password without it |
| Registration.SignUpEmailCaseInsensitive | api/serializers.py:59-60 | changing only the case of the stripped e-mail does not change whether the sign-up is accepted |
| Registration.InviteExpiryMonotone | api/serializers.py:56-57 | an invite accepted now would have been accepted at any earlier time |
| Registration.Accounts.Register | api/serializers.py:64-71 | a refused sign-up changes nothing and returns its errors; an accepted one deletes the stripped invite token and appends exactly one non-superuser under the next key with the stripped e-mail and the stripped first and last names |
| Registration.InviteSingleUse | api/serializers.py:66-68 | once used, the same invite is refused as invalid at any later time |
| Registration.ChangePassword | api/serializers.py:91-106 | a password change is accepted exactly when all three values are given and not blank, the stripped old one verifies, the stripped new one passes the validators and equals the stripped confirmation; the stripped new password is what is set; a refusal names at least one field |
| Registration.MismatchReportedLast | api/serializers.py:97-100 | unequal stripped new passwords are always refused, and the confirmation alone is reported exactly when the old and new passwords pass their own checks |
| Registration.PaddedNewPasswordSetStripped | api/serializers.py:93-95 | a new password typed with a trailing blank and confirmed without it is accepted, and the password set has no blank |
| Forms.StringToBool | apps/main/forms.py:411-417 | "true" gives True, "false" gives False, and anything else gives `None` |
| Forms.InitialChoice | apps/main/views.py:214-218 | the edit form shows "true" exactly for a stored True and "false" otherwise |
| Forms.ChoiceRoundTrip | apps/main/views.py:214-218 | a stored flag shown by the edit form and submitted unchanged comes back as itself when known, and an unknown flag comes back as False |
| Forms.AnswerRoundTrip | apps/main/forms.py:411-417 | both answers survive being parsed and shown again |
| Forms.StatusOrNone | apps/main/forms.py:335 | an empty working status is stored as `None`, any other as itself |
| Forms.FormEmployee | apps/main/forms.py:325-352 | assigning the form keeps the row's key and timestamps |
| Forms.UpdateOverwritesEveryField | apps/main/forms.py:325-338 | on update every scalar field comes from the form, blanks included: the result is the new row's fields under the stored key |
| Forms.BlankStatusIsNone | apps/main/forms.py:335 | the status is `None` exactly when the form's status is blank, on create and on update |
| Forms.SaveToModels | apps/main/forms.py:321-352 | with no key, a new employee is created through the audited create path; with a key, a missing row fails and an existing one is overwritten from the form, its diff logged by the ambient user and the save receivers run |
| Forms.Owned | apps/main/forms.py:355-407 | counts an employee's records of one kind: zero exactly when none belongs to it |
| Forms.RewriteOwned | apps/main/forms.py:355-407 | an update rewrites exactly the employee's records and leaves the others as they were |
| Forms.UpsertByEmployee | apps/main/forms.py:355-407 | `update_or_create(employee=...)` fails with MultipleObjectsReturned when the employee already has more than one record, else rewrites its one record or appends one new record, leaving other employees' records alone |
| Forms.OwnedAppend | apps/main/forms.py:355-407 | appending a record adds one to its owner's count only |
| Forms.OwnedRewrite | apps/main/forms.py:355-407 | rewriting records keeps each owner's count |
| Forms.UpsertLeavesOne | apps/main/forms.py:355-407 | after a successful upsert the employee has exactly one record of that kind |
| Forms.UpsertIdempotent | apps/main/forms.py:355-407 | repeating the same upsert changes nothing more |
| Forms.UpsertOwnedSatisfy | apps/main/forms.py:355-407 | every record of the employee after an upsert carries the form's values |
| Forms.Upsert | apps/main/forms.py:355-407 | `update_or_create` reports the row it saved: a created row is the new one and there was no previous row exactly when the employee had none; a rewritten row is the defaults applied to the employee's stored row |
| Forms.UpsertKeeps | apps/main/forms.py:355-407 | a property of every stored row, of the new row and of every rewritten row holds of every row after the upsert |
| Forms.SavePeriod | apps/main/forms.py:354-361 | no start date writes nothing; at most one stored period never fails; a duplicated period fails with MultipleObjectsReturned and writes nothing; otherwise only the period table, the key counter and the History rows of the update change, and stored dates stay calendar dates |
| Forms.SaveDocumentRow | apps/main/forms.py:363-371 | a blank document type writes nothing; a failure (a duplicated document, or the post-save hook as written) writes nothing and is one of those two errors; with the intended hook at most one stored document never fails; only the document table, the key counter, History and the notices change |
| Forms.SavePermit | apps/main/forms.py:373-380 | a blank permit type writes nothing; a failure (a duplicated permit, or the post-save hook as written) writes nothing and is one of those two errors; with the intended hook at most one stored permit never fails; only the permit table, the key counter, History and the notices change |
| Forms.SaveCard | apps/main/forms.py:382-389 | a blank card type writes nothing; at most one stored card never fails; a failure writes nothing; only the card table, the key counter and History change |
| Forms.SaveContract | apps/main/forms.py:391-397 | a blank contract type writes nothing; at most one stored contract never fails; a failure writes nothing; only the contract table, the key counter and History change |
| Forms.SaveSanepid | apps/main/forms.py:399-407 | a blank sanepid status writes nothing; at most one stored sanepid row never fails; a failure writes nothing; only the sanepid table, the key counter and History change |
| Forms.SaveSubRecords | apps/main/forms.py:354-407 | the six upserts run in order and the first failure stops the rest; the failure is MultipleObjectsReturned, or `AttributeError` only under the hooks as written |
| Forms.BlankFormWritesNothing | apps/main/forms.py:354-407 | a form with every key field blank writes no sub-record |
| Forms.BlankKeyKeepsTable | apps/main/forms.py:354-407 | a blank key field leaves its table as it was, whatever the other fields hold |
| Forms.SanepidStatusTwice | apps/main/forms.py:399-406 | after a sanepid write the employee has one sanepid row, whose status and type both hold the form's status |
| Forms.DocumentRewritten | apps/main/forms.py:363-371 | after a document write the employee has one document, carrying the form's type, number and expiry |
| Forms.IntendedFormCompletes | apps/main/forms.py:354-407 | with the intended hooks, an employee with at most one row in each sub-table gets every sub-record saved |
| Forms.DatedDocumentStopsTheForm | apps/main/forms.py:363-371 | with the hooks as written, a dated document of an employee who is not dismissed ends the form with `AttributeError` right after the period step: no document, permit, card, contract or sanepid write survives |
| Forms.IntendedDocumentNotices | apps/main/forms.py:363-371 | with the intended hook, the document step deletes the notices of the employee's saved document exactly when the submitted expiry is stale, and keeps them otherwise |
| Forms.DocumentResubmitLogsNothing | apps/main/forms.py:363-371 | resubmitting the document the employee already holds logs no History row |
| Filters.StatusCondition | apps/main/filters.py:55-78 | the ticked working-status codes give no condition when none is known, and otherwise a condition an employee meets exactly when its status is one of the ticked statuses |
| Filters.AllHoldAppend | apps/main/filters.py:80-84 | adding a conjunct to the list adds it to the combined condition |
| Filters.NoConditionNoCode | apps/main/filters.py:80-86 | when no conjunct is built, no ticked value was a known code |
| Filters.NoCodeMatchesAll | apps/main/filters.py:80-86 | a selection with no known value keeps every employee |
| Filters.StatusSelection | apps/main/filters.py:51-86 | the filtered list is exactly the employees meeting the selection |
| Filters.FilterByStatus | apps/main/filters.py:51-86 | the loop building and AND-ing the conjuncts selects exactly the status selection |
| Filters.UnknownCodeIgnored | apps/main/filters.py:64 | ticking an unknown code changes nothing |
| Filters.StudentAndWorking | apps/main/filters.py:62-84 | "student" together with "pracujący" selects exactly the working students |
| Filters.TwoStatusesOred | apps/main/filters.py:74-78 | two ticked status codes select employees with either status |
| Filters.FilterByName | apps/main/filters.py:88-94 | an empty query keeps the list; otherwise exactly the employees whose first or last name contains the query, ignoring case |
| Filters.OccursLowered | apps/main/filters.py:92-94 | a substring still occurs after lower-casing both sides |
| Filters.VerbatimMatchFound | apps/main/filters.py:92-94 | an employee whose last name contains the query as typed is found |
| Filters.SearchIgnoresQueryCase | apps/main/filters.py:92-94 | lower-casing the query does not change the result |
| Filters.MapSeq | apps/main/filters.py:104-118 | mapping keeps the length and maps each element in place |
| Filters.AppendMapped | apps/main/filters.py:143-165 | the loop appending mapped values yields the start followed by the mapped list |
| Filters.MappedParams | apps/main/filters.py:104-118 | one mapped field per requested key |
| Filters.TermsFor | apps/main/filters.py:143-165 | one sort term per mapped field |
| Filters.RequestedTerms | apps/main/filters.py:104-165 | one sort term per requested key |
| Filters.OrderingTerms | apps/main/filters.py:96-170 | no keys give no ordering; otherwise the terms are status priority first, one term per key, then `-id` last |
| Filters.FilterOrdering | apps/main/filters.py:96-170 | the two loops of `filter_ordering` build exactly those terms |
| Filters.StripUndashed | apps/main/filters.py:106-107 | a key without "-" is ascending and stays as it is |
| Filters.StripDashed | apps/main/filters.py:106-107 | a key with one leading "-" is descending and strips to the field |
| Filters.AscendingDateParam | apps/main/filters.py:158-163 | start_date and end_date map to the annotations, ascending with nulls read as 9999-12-31 |
| Filters.DescendingDateParam | apps/main/filters.py:114-116 | their "-" forms keep the "-" and sort descending with nulls read as 1900-01-01 |
| Filters.LastNameParam | apps/main/filters.py:164-165 | last_name sorts by the field itself in either direction |
| Filters.Priority | apps/main/filters.py:133-140 | the status priority is 1 exactly for "Zwolniony" and 0 otherwise |
| Filters.TextCmp | apps/main/filters.py:144-168 | the text comparison is 0 exactly for equal texts and is a sign |
| Filters.TextCmpAntisymmetric | apps/main/filters.py:144-168 | swapping two texts negates their comparison |
| Filters.TermCmpAntisymmetric | apps/main/filters.py:144-168 | swapping two rows negates a term's comparison |
| Filters.CompareAntisymmetric | apps/main/filters.py:143-170 | swapping two rows negates the whole ordering's comparison |
| Filters.LastTermDecides | apps/main/filters.py:167-168 | a final term that tells two rows apart makes the ordering tell them apart |
| Filters.OrderTotal | apps/main/filters.py:167-168 | with `-id` last, of two different employees exactly one comes first |
| Filters.DismissedLast | apps/main/filters.py:133-143 | a working employee always comes before a dismissed one |
| Filters.NullsLast | apps/main/filters.py:148-163 | sorting by one date key, a row with a date comes before a row of the same priority without one, in either direction |
| HistoryFilters.FieldLabel | apps/main/templatetags/history_filters.py:11-59 | the label table knows only lower-case field names, and no label starts with a lower-case letter |
| HistoryFilters.FieldVerboseName | apps/main/templatetags/history_filters.py:61 | a known field name shows its label; the name comes back unchanged exactly when it is unknown |
| HistoryFilters.FieldVerboseNameIdempotent | apps/main/templatetags/history_filters.py:61 | a label is never itself a field name, so labelling twice is labelling once |
| HistoryFilters.EmployeeFieldsLabelled | apps/main/templatetags/history_filters.py:11-25 | every audited employee field except the key has a label |
| HistoryFilters.FormatFieldValue | apps/main/templatetags/history_filters.py:64-108 | the shown value is empty exactly for `None` and "", and "true"/"false" in any case show as yes/no before any other mapping |
| HistoryFilters.CodeLabel | apps/main/templatetags/history_filters.py:79-106 | a label is found exactly for a working-status, contract or contact code |
| HistoryFilters.TablesDisjoint | apps/main/templatetags/history_filters.py:73-106 | no code is a yes/no word and the three code tables share no key, so their order never matters |
| HistoryFilters.CodesShowTheirLabel | apps/main/templatetags/history_filters.py:86-108 | a code shows its label, and any other non-empty value that is not a yes/no word shows as itself |
| HistoryFilters.FormatIdempotent | apps/main/templatetags/history_filters.py:64-108 | formatting a formatted value changes nothing |
| HistoryFilters.AuditedBooleanShown | apps/main/models.py:106-107 | a boolean logged by the audit mixin shows as yes or no |
| HistoryFilters.ModelName | apps/main/templatetags/history_filters.py:126 | every audited model has a non-empty content-type name |
| HistoryFilters.ModelVerboseName | apps/main/templatetags/history_filters.py:111-126 | a known model name shows its label; the name comes back unchanged exactly when it is unknown |
| HistoryFilters.AuditedModelsLabelled | apps/main/templatetags/history_filters.py:116-125 | every audited model has a label, and different models have different labels |
| HistoryFilters.DisplayName | apps/main/templatetags/history_filters.py:129-148 | a missing object shows the deleted-object label, an employee its full name, a record with an employee that employee's full name, anything else its string form |
| HistoryFilters.OwnerKey | apps/main/templatetags/history_filters.py:144-145 | a sub-record's owner is found exactly when the record still exists |
| HistoryFilters.OwnerOf | apps/main/templatetags/history_filters.py:144-145 | the owner is found exactly when the row is |
| HistoryFilters.OwnerExists | apps/main/models.py:154-205 | the owner of an existing sub-record is an existing employee |
| HistoryFilters.ContentObjectOf | apps/main/templatetags/history_filters.py:134 | a History row's object is missing exactly when its row has been deleted, and it is always an employee or an employee's record |
| HistoryFilters.DisplayNameOfRow | apps/main/templatetags/history_filters.py:129-148 | a History row shows the deleted-object label when its object is gone, and otherwise the full name of the employee it concerns |
| ChatViews.InsertByTime | apps/chat/views.py:20 | inserting a message into a time-ordered list keeps it ordered and adds exactly that message |
| ChatViews.SortByTime | apps/chat/views.py:20 | `order_by("timestamp")` yields a time-ordered permutation of the messages |
| ChatViews.ToJson | apps/chat/views.py:24-32 | a message's JSON carries its sender, text and time; the file flag is set exactly when there is a file, and the file name, URL and size are null exactly when there is none |
| ChatViews.GetMessages | apps/chat/views.py:16-35 | the reply is the JSON of the ordered conversation, message by message |
| ChatViews.MessagesExactlyBetween | apps/chat/views.py:17-20 | the conversation holds exactly the messages between the two users, in either direction, ordered by time |
| ChatViews.ConversationSymmetric | apps/chat/views.py:17-19 | the conversation of a with b is the conversation of b with a |
| ChatViews.Latest | apps/chat/views.py:73 | `Max` is one of the times and no time exceeds it |
| ChatViews.Senders | apps/chat/views.py:70-75 | grouping by sender yields each sender once, and exactly the users who wrote one of the messages |
| ChatViews.WroteReceived | apps/chat/views.py:70-72 | a sender appears among the received messages exactly when they sent the user a message |
| ChatViews.SenderSummary | apps/chat/views.py:73-83 | a sender's total counts all their messages to the user, read or not, and the last time is present exactly when there is one, as their latest message's time |
| ChatViews.CountsCoverReceived | apps/chat/views.py:70-83 | the per-sender totals add up to the number of received messages |
| ChatViews.GroupSummary | apps/chat/views.py:86-96 | the group entry counts every group message, and its last time is null exactly when there are none, else the time of a group message |
| ChatViews.SenderEntries | apps/chat/views.py:78-83 | the result has a key exactly for each sender's id text, holding that sender's summary |
| ChatViews.GetUnreadCounts | apps/chat/views.py:60-98 | the "group" key is always present with the group summary, and every other key is the id of a user who sent the requester a message, with that sender's summary |
| ChatViews.NotGroupKey | apps/chat/views.py:80-88 | no user id's text is "group", so the group entry never overwrites a sender's |
| CsvImport.UnpaddedDigits | utils/csv_to_objects.py:185 | a digit run without a leading zero is read by `%d` as itself |
| CsvImport.TwoDigitDay | utils/csv_to_objects.py:185 | a two-digit field between 1 and 31 is accepted by the `%d` directive |
| CsvImport.Strptime | utils/csv_to_objects.py:185 | whenever `strptime` with one of the four formats reads a value, the date it yields is a real calendar date |
| CsvImport.ParseDateField | utils/csv_to_objects.py:171-188 | a non-text value comes back unchanged, a blank text gives null, a text of none of the three date shapes comes back stripped, a parsed date is a real date read from a shaped text, and the only error is a shaped text that is no calendar date |
| CsvImport.DashedChars | utils/csv_to_objects.py:176 | a text of the `YYYY-MM-DD` shape holds dashes exactly at positions 4 and 7 and digits everywhere else |
| CsvImport.DashedRead | utils/csv_to_objects.py:176-184 | a `YYYY-MM-DD` text is already stripped, matches the pattern and is read with `%Y-%m-%d` |
| CsvImport.DashedSplit | utils/csv_to_objects.py:185 | splitting a `YYYY-MM-DD` text on the dash yields its year, month and day fields |
| CsvImport.DashedStrptime | utils/csv_to_objects.py:185 | `%Y-%m-%d` reads a dashed text as the date its three fields spell |
| CsvImport.DashedParsed | utils/csv_to_objects.py:171-188 | a dashed text that `strptime` reads is parsed by `parse_date_field` to that date |
| CsvImport.IsoTextParsed | utils/csv_to_objects.py:171-188 | the ISO text of any valid date is parsed back to the same date |
| CsvImport.FirstFormat | utils/csv_to_objects.py:211-219 | the retry reading is absent exactly when every format fails, and otherwise it is the date read by a format all of whose predecessors failed |
| CsvImport.TryFormats | utils/csv_to_objects.py:211-219 | the loop over the formats, breaking at the first that reads the value, yields the first successful reading in the order dotted, dashed, month-first slashed, day-first slashed |
| CsvImport.CleanCell | utils/csv_to_objects.py:198-226 | a cleaned cell is never NaN; NaN becomes null; a cell outside the four date columns is kept; a date-column text becomes null exactly when blank, stays stripped text when no format reads it, and becomes a real date otherwise |
| CsvImport.CleanAndParseRow | utils/csv_to_objects.py:191-228 | the cleaned row keeps the row's columns in order and cleans each cell independently, and a raw row becomes a cleaned one |
| CsvImport.CleanCellIdempotent | utils/csv_to_objects.py:191-228 | cleaning a cell twice gives the same as cleaning it once |
| CsvImport.CleanRow | utils/csv_to_objects.py:156-169 | `clean_row` keeps every column and turns exactly the NaN cells into null, leaving every other cell as it was |
| CsvImport.SlashedChars | utils/csv_to_objects.py:176 | a text of the `DD/MM/YYYY` shape holds slashes exactly at positions 2 and 5 and digits everywhere else |
| CsvImport.SlashedNotDottedOrDashed | utils/csv_to_objects.py:211-219 | neither the dotted nor the dashed format reads a slashed text |
| CsvImport.SlashedRead | utils/csv_to_objects.py:176-184 | a slashed text is already stripped, matches the pattern and is read by `parse_date_field` day first |
| CsvImport.SlashedCleanedMonthFirst | utils/csv_to_objects.py:205-226 | the row cleaning reads a slashed date column month first, falling back to day first and then to the text itself |
| CsvImport.SlashedFirstFormat | utils/csv_to_objects.py:211-219 | for a slashed text the first successful format is the month-first one when it reads the text, else the day-first one |
| CsvImport.SlashedParsedDayFirst | utils/csv_to_objects.py:176-188 | `parse_date_field` reads a slashed text day first and raises when that is no calendar date |
| CsvImport.SlashReadingsSwap | utils/csv_to_objects.py:184 | when both slashed formats read a text, their dates differ exactly by swapping day and month |
| CsvImport.ParseContact | utils/csv_to_objects.py:230-238 | type and value are both set or both unset; a text holding `@` is an email with the stripped text as its value; otherwise a type is found exactly when the text has two words, and then type and value are single words |
| CsvImport.ContactRoundTrip | utils/csv_to_objects.py:230-238 | a contact written as "<type> <value>" from two single words without `@` is read back as that type and value |
| CsvImport.Get | utils/csv_to_objects.py:12 | `row.get(k, default)` gives the default when the column is absent, and any other answer is the cell of a column of that name |
| CsvImport.GetCleaned | utils/csv_to_objects.py:191-228 | in a cleaned row a column outside the date columns holds null or text |
| CsvImport.NameParts | utils/csv_to_objects.py:12-19 | a null name raises `AttributeError`; a name of two or more words gives a non-empty single-word first and last name; a name of fewer words is all first name with an empty last name |
| CsvImport.NameRoundTrip | utils/csv_to_objects.py:12-19 | the full name of an employee, last name first, with single-word names is split back into the first and last name |
| CsvImport.BlankToNull | utils/csv_to_objects.py:29 | a cell in `["", None]` becomes null and any other cell is kept |
| CsvImport.EmployeeFor | utils/csv_to_objects.py:26-37 | the employee carries the split names, is a student exactly when the student cell is truthy, and has no age exactly when the age cell is blank |
| CsvImport.PeriodFor | utils/csv_to_objects.py:41-49 | a period is created exactly when the start cell is truthy, with that start and the end blanked to null |
| CsvImport.DocumentFor | utils/csv_to_objects.py:54-81 | no basis gives an empty document; a basis starting with "karta" in any case gives a karta document with a number, any other basis a document of that type with no number, all ending on the given date |
| CsvImport.KartaNumber | utils/csv_to_objects.py:62-69 | "karta" followed by a number gives a karta document numbered with the stripped number |
| CsvImport.CapitalKartaKept | utils/csv_to_objects.py:63 | since only the lower-case word is removed, a basis starting "Karta" keeps that word in its number |
| CsvImport.ContractFor | utils/csv_to_objects.py:86-96 | a contract is created exactly for the two known kinds, each mapped to its stored code |
| CsvImport.SanepidFor | utils/csv_to_objects.py:100-106 | a sanepid record is created exactly when the cell is truthy, its status and type both the lower-cased, stripped cell |
| CsvImport.StripAll | utils/csv_to_objects.py:113 | stripping every piece keeps the number and order of pieces |
| CsvImport.PermitFor | utils/csv_to_objects.py:111-125 | no permit cell gives no permit; a cell without "do" gives a permit of that stripped type and no end; the only failure is a `ValueError` from the end date |
| CsvImport.PermitOfPieces | utils/csv_to_objects.py:114-119 | a single piece is the permit type with no end date, and the only failure is a `ValueError` |
| CsvImport.CardFor | utils/csv_to_objects.py:130-138 | a card application is created exactly when its submission cell is truthy, with that submission and date |
| CsvImport.ContactFor | utils/csv_to_objects.py:143-150 | a contact is created exactly when its cell is truthy, holding what `parse_contact` reads from it |
| CsvImport.PermitSplit | utils/csv_to_objects.py:113 | splitting "<type> do <date>" on "do" gives exactly the two sides |
| CsvImport.PermitRoundTrip | utils/csv_to_objects.py:111-125 | a permit written as "<type> do <ISO date>" is read back as that type ending on that date |
| CsvImport.PermitPieces | utils/csv_to_objects.py:113-116 | the stripped pieces of "<type> do <date>" are the type and the date text |
| CsvImport.AgeCell | utils/csv_to_objects.py:29 | the age handed to the employee row is null or a non-empty text |
| CsvImport.AgeError | utils/csv_to_objects.py:26-37 | the `PositiveSmallIntegerField` age stores null and every text `int()` reads as a non-negative number; a text `int()` cannot read raises `ValueError`, and a negative number is refused with `IntegrityError` |
| CsvImport.EmployeeOnly | utils/csv_to_objects.py:26-37 | the employee row alone holds the employee and no other record, so its dates are all stored |
| CsvImport.RecordsBeforePermit | utils/csv_to_objects.py:26-106 | the records before the permit carry the split names and the document, and no permit, card application or contact |
| CsvImport.WithPermit | utils/csv_to_objects.py:111-150 | the records from the permit on keep the employee, carry the given permit, and hold a contact exactly when the contact cell is truthy |
| CsvImport.FromPermit | utils/csv_to_objects.py:111-150 | from the permit on, a raise keeps the written records with stored dates and no contact, and is a `ValidationError` for a text permit end or card date, or the permit's own `ValueError`; a success keeps the employee, stores every date, and holds a permit exactly when the permit cell is truthy |
| CsvImport.FromPeriod | utils/csv_to_objects.py:41-150 | once the employee row is written, every raise keeps that employee and dates that were all stored; a `ValidationError` means a date column or the permit end held text |
| CsvImport.CreateEmployeeFromRow | utils/csv_to_objects.py:8-153 | a row raises before writing anything exactly when its name is null (`AttributeError`) or its age cannot be stored (`ValueError` or `IntegrityError`); any later raise keeps the records written before it, whose dates were all stored, and is either a `ValidationError`, which needs a text in a date column or the permit end, or the permit's `ValueError`; a created row stores every date, has its document, carries the split name, and has a permit exactly when the permit cell is truthy |
| CsvImport.ImportedNames | utils/csv_to_objects.py:12-37 | a row whose name column holds an employee's two single-word names, and whose age can be stored, writes an employee with exactly those names, even when a later record raises |
| CsvImport.UnreadableAgeRaises | utils/csv_to_objects.py:26-37 | a non-empty age that `int()` cannot read raises `ValueError` before any record is written |
| CsvImport.UnreadStartRaises | utils/csv_to_objects.py:41-49 | a start date left as text is refused at the period's `create` with `ValidationError`, once the employee row alone is written |
| CsvImport.UnreadPermitDateRaises | utils/csv_to_objects.py:111-125 | a permit "<type> do <text>" whose text has no date shape (such as "31.12.24") is refused at the permit's `create` with `ValidationError`, after the document and the records before the permit are written |
| CsvImport.PermitTextKept | utils/csv_to_objects.py:111-119 | the permit of "<type> do <text>", for a text with no date shape, has that type and keeps the text as its end |
| CsvImport.ReachesPermit | utils/csv_to_objects.py:26-106 | a named row whose age can be stored and whose date columns hold no text writes every record before the permit, with all their dates stored, and goes on to the permit |
| CsvImport.ReadableRowImports | utils/csv_to_objects.py:8-153 | a named row whose age can be stored, whose date columns hold no text, and whose permit is read with a date end or none creates all its records |
| CsvImport.ImportedPermit | utils/csv_to_objects.py:111-153 | a named row whose age can be stored, whose date columns hold no text, and whose permit reads "<type> do <ISO date>" creates all its records, the permit ending on that date |
| Cookies.OctetAt | static/js/app.js:9 | an escape read at a position is a `%` followed by two hex digits, giving a value below 256 |
| Cookies.SequenceLength | static/js/app.js:9 | a UTF-8 lead octet announces a sequence of two to four octets, and any other octet none |
| Cookies.Decode | static/js/app.js:9 | `decodeURIComponent` never lengthens its input, and its only failure is the `URIError` |
| Cookies.DecodePlain | static/js/app.js:9 | a text without `%` decodes to itself |
| Cookies.BrokenEscape | static/js/app.js:9 | a first `%` not followed by two hex digits makes decoding throw `URIError` |
| Cookies.Escape | static/js/app.js:9 | the `%XX` escape of an octet is three characters that read back as that octet |
| Cookies.Utf8 | static/js/app.js:9 | a character's UTF-8 encoding is one to four octets |
| Cookies.Encode | static/js/app.js:9 | `encodeURIComponent`, the inverse partner of decoding, never shortens its input |
| Cookies.DecodeEncodedChar | static/js/app.js:9 | the encoding of one character, followed by anything, decodes to that character followed by the decoding of the rest |
| Cookies.DecodeEncode | static/js/app.js:9 | decoding the encoding of any text gives the text back |
| Cookies.Prefix | static/js/app.js:8 | `substring(0, end)` is the prefix of length `end`, or the whole text when it is shorter |
| Cookies.Suffix | static/js/app.js:9 | `substring(start)` is the text from `start`, or empty past the end |
| Cookies.MatchesIsPrefix | static/js/app.js:8 | an entry matches a name exactly when it starts with the name followed by `=` |
| Cookies.FirstTrue | static/js/app.js:6-12 | the first matching entry has no match before it, and no entry matches when there is none |
| Cookies.ValueOf | static/js/app.js:9 | a matching entry whose value decodes always yields a value |
| Cookies.GetCookie | static/js/app.js:2-15 | the loop over the trimmed entries, breaking at the first match, gives `CookieLookup`: the first entry starting with `name=`, decoded; no cookie gives null |
| Cookies.NoCookies | static/js/app.js:4 | an empty cookie string gives null |
| Cookies.LongerNameNoMatch | static/js/app.js:8 | a cookie whose name only starts with the wanted name is not taken for it |
| Cookies.JarValue | static/js/app.js:2-15 | the value of the first cookie of a name in a jar is that cookie's value, and there is none exactly when no cookie has that name |
| Cookies.MatchesName | static/js/app.js:8 | a `name=value` pair matches a name without `=` exactly when its name is that name |
| Cookies.TrimEntry | static/js/app.js:7 | trimming an entry of the cookie string gives its `name=value` pair |
| Cookies.CookieEntries | static/js/app.js:4-5 | the cookie string of a non-empty jar is not empty, and splitting it on `;` gives its entries |
| Cookies.JarLookup | static/js/app.js:2-15 | reading a cookie back from the cookie string of a jar gives the decoded value of the first cookie of that name, and null when there is none |
| EmployeePage.BoolToString | static/js/app.js:273-277 | `true` and `false` become their texts and any other value the empty text |
| EmployeePage.YesNoRoundTrip | static/js/app.js:181-186 | the text written into a yes/no select is read back by the server form as the same boolean, and as no choice for a value that is not a boolean |
| EmployeePage.FilledValue | static/js/app.js:255-263 | a field whose name ends in `-contact_type` takes the contact's type, and a field with none of the four endings keeps its value |
| EmployeePage.FillForm | static/js/app.js:249-264 | a filled contact form has one field per template field, each renamed and filled from the contact |
| EmployeePage.BlankForm | static/js/app.js:1028-1039 | an added contact form has one field per template field, each renumbered and blanked unless hidden |
| EmployeePage.ReplaceFirstIsAll | static/js/app.js:252 | in a name holding the placeholder at most once, replacing its first occurrence is replacing all of them |
| EmployeePage.FilledRowNumbered | static/js/app.js:252-253 | every field of a filled contact form carries the form's index in place of the placeholder |
| EmployeePage.ContactFormset.constructor | static/js/app.js:240-246 | an empty contact list holds no forms and counts none |
| EmployeePage.ContactFormset.FillContacts | static/js/app.js:240-271 | the list holds one filled form per contact, in order, both counters equal the number of contacts, and the formset stays consistent |
| EmployeePage.ContactFormset.AddContact | static/js/app.js:1025-1042 | adding a contact appends one blank form numbered by the current total, raises the total by one, keeps the initial count and keeps the formset consistent |
| EmployeePage.UnlockTarget | static/js/app.js:282-284 | closing the modal asks to unlock exactly when the current employee id is truthy, and then that id |
| EmployeePage.EmployeeModal.constructor | static/js/app.js:80-82 | the page starts with no modal open and no employee selected |
| EmployeePage.EmployeeModal.OpenModal | static/js/app.js:80-95 | opening records the mode and id, asks for a lock exactly when editing a truthy id, and shows the modal unless that lock was refused |
| EmployeePage.EmployeeModal.CloseModal | static/js/app.js:280-291 | closing asks to unlock the previous employee, hides the modal and resets mode and id |
| EmployeePage.EditOpensOnlyWithLock | static/js/app.js:85-92 | editing an existing employee opens the modal exactly when the server grants the lock |
| EmployeePage.OpenThenCloseReleases | static/js/app.js:80-92 | an editor opened and then closed within the lock's lifetime has released the lock, so another user's lock request is then granted |
| TaskPage.PriorityCode | api/serializers.py:210 | a task's priority is sent as one of the codes "low", "medium" and "high" |
| TaskPage.CardFor | api/serializers.py:198-255 | a task's card carries its id, a status code that reads back as its status, its assignee and description, and, for a signed-in user, the edit, take and delete permissions the task grants that user |
| TaskPage.TaskActions | static/js/tasks.js:252-279 | a card shows "take" exactly when it is "todo", "complete" and "return" exactly when it is in progress and the user may take it, a disabled lock exactly when it is in progress and they may not, edit and delete exactly when permitted, in that order |
| TaskPage.StatusPatch | static/js/tasks.js:282-284 | a status button sends a change of the status alone, to the button's status |
| TaskPage.TakeShownButRefused | static/js/tasks.js:256-257 | a "todo" task assigned to another user shows the "take" button although its card says the user may not take it, and the server refuses the change as assigned to someone else |
| TaskPage.IntendedActions | static/js/tasks.js:252-279 | the corrected buttons show "take" only on a "todo" card the user may take, and otherwise the same buttons as the page |
| TaskPage.IntendedDiffersOnlyOnTake | static/js/tasks.js:256-267 | the corrected buttons equal the page's except that a "todo" card the user may not take loses its "take" button |
| TaskPage.IntendedButtonsAccepted | static/js/tasks.js:252-279 | every status button of the corrected page is never refused as assigned to someone else or as no longer "todo", and "take" on a task nobody holds is accepted outright |
| TaskPage.Column | static/js/tasks.js:152-154 | a column holds exactly the tasks of its status, in list order, and no more tasks than the list |
| TaskPage.ColumnsPartition | static/js/tasks.js:152-154 | when every task has a known status, the three columns together hold every task exactly once |
| TaskPage.UnknownStatusHidden | static/js/tasks.js:152-154 | a task of an unknown status is shown in no column |
| TaskPage.Cards | api/serializers.py:198-255 | the list endpoint sends one card per task, in order |
| TaskPage.CountsAddUp | static/js/tasks.js:157-159 | the three column counts of the server's cards add up to the number of tasks |
| TaskPage.Columns.constructor | static/js/tasks.js:147-149 | the board starts with empty columns and zero counts |
| TaskPage.Columns.Render | static/js/tasks.js:145-185 | rendering fills each column with the tasks of its status and sets each count to its column's length |
| TaskPage.Run | static/js/tasks.js:366 | the digit run `parseInt` reads is the longest prefix of characters of that kind |
| TaskPage.DecimalMagnitude | static/js/tasks.js:366 | a decimal digit string without a leading zero has the magnitude its digits spell |
| TaskPage.ParseIntDigits | static/js/tasks.js:366 | `ParseInt`, JavaScript's `parseInt`, reads a plain decimal numeral as its value |
| TaskPage.ParseIntRoundTrip | static/js/tasks.js:366 | `parseInt` of the decimal text of a number gives the number back |
| TaskPage.ParseIntNaN | static/js/tasks.js:366 | a text starting with neither a digit, a blank nor a sign parses to `NaN` |
| TaskPage.Submit | static/js/tasks.js:358-372 | the payload keeps title and priority, sends a blank description, due date or assignee as null and any other as given, the assignee through `parseInt`, and a status, "todo", exactly for a new task |
| TaskPage.SubmitRoute | static/js/tasks.js:375-381 | the form is PUT to the task's URL exactly when editing a task with a truthy id, and POSTed otherwise |
| TaskPage.EditForm | static/js/tasks.js:295-312 | the edit dialog shows the card's title and priority, and an empty assignee exactly when the card has none |
| TaskPage.EditRoundTrip | static/js/tasks.js:295-372 | opening a task for editing and saving it unchanged sends back its own title, priority, description, due date and assignee, with blanks as null, and no status |
| TaskPage.ApiErrorText | static/js/tasks.js:37-46 | a failed response throws the first assignee error with its prefix, else a non-empty detail, else the generic text, and an unparsable body its parser's error |
| TaskPage.StatusErrorNotice | static/js/tasks.js:287-290 | the notice is the error's message, or the fallback when that is empty |
| TaskPage.RefusalShown | static/js/tasks.js:37-46 | a server refusal with a detail is shown to the user word for word |
| TaskPage.JsonErrorNeverEmpty | static/js/tasks.js:37-46 | the message thrown for a JSON error body is never empty, so the fallback is never shown for it |
| TaskPage.Initials | static/js/tasks.js:405-415 | initials are one or two characters, and "?" for a missing or empty name |
| TaskPage.ServerName | api/serializers.py:218-231 | a user's display name is first and last name joined by one space |
| TaskPage.ServerNameWords | static/js/tasks.js:407 | a display name of two single words splits back into them |
| TaskPage.InitialsOfTwoWords | static/js/tasks.js:405-415 | the initials of a two-word display name are the upper-cased first letters of first and last name |
| TaskPage.InitialsOfOneWord | static/js/tasks.js:411-413 | the initial of a single word is its upper-cased first letter |
| TaskPage.InitialsOfBlank | static/js/tasks.js:405-415 | a name of one blank has initials "?" |
| TaskPage.InitialsOfServerName | static/js/tasks.js:405-415 | the initials of any display name are the first letters of its non-empty parts, upper-cased, and "?" when both are empty |
| BasePage.BoolText | static/js/base.js:65 | `isCollapsed.toString()` is "true" or "false", and "true" exactly for `true` |
| BasePage.SidebarState | static/js/base.js:57-61 | with nothing saved the sidebar is collapsed, and otherwise it is collapsed exactly when the saved text is "true" |
| BasePage.SaveThenRead | static/js/base.js:57-66 | a saved sidebar state reads back as itself |
| BasePage.Page.constructor | static/js/base.js:56-61 | a page starts from the browser's storage with the sidebar expanded |
| BasePage.Page.Saved | static/js/base.js:58 | `localStorage.getItem` gives the stored text of the key, and null exactly when the key is absent |
| BasePage.Page.GetSidebarState | static/js/base.js:57-61 | the state read is the state the stored text stands for |
| BasePage.Page.SaveSidebarState | static/js/base.js:64-66 | saving writes the state's text under the sidebar key and nothing else, so it reads back as that state |
| BasePage.Page.InitSidebar | static/js/base.js:69-79 | on load the sidebar takes the stored state, leaving storage as it was, so page and storage agree |
| BasePage.Page.Toggle | static/js/base.js:82-86 | a click flips the sidebar and stores its new state, so page and storage still agree |
| BasePage.PasswordSubmit | static/js/base.js:266-288 | two different new passwords stop at the mismatch alert and send nothing; otherwise the three values are posted as typed |
| BasePage.SentChangeNeverMismatches | static/js/base.js:270-288 | a change the page sends is never refused by the server's own mismatch check: a refusal names some field, and names the confirmation exactly when the confirmation is blank |
| BasePage.PasswordAlert | static/js/base.js:294-304 | the alert is the old password's first message, else the new password's, else the confirmation's, else the generic text, which an unreadable body also gives |
| BasePage.ErrorBody | api/views.py:160 | the error body lists a message for exactly the fields that failed |
| BasePage.AlertShowsFirstError | static/js/base.js:294-304 | whatever the server refuses, the alert shows the message of the first field it reports |
| ChatWidget.CurrentText | static/js/chat/chat.js:37 | `String(currentUser)` is the open chat's id, or "null" when none is open |
| ChatWidget.Bumped | static/js/chat/chat.js:83-84 | a counter starts from one for a new chat and otherwise goes up by one |
| ChatWidget.TotalRemove | static/js/chat/chat.js:105 | the total of the counters is one counter plus the total of the others |
| ChatWidget.TotalUpdate | static/js/chat/chat.js:105 | setting a counter changes the total by the difference between its new and old value |
| ChatWidget.BumpAddsOne | static/js/chat/chat.js:80-105 | a new message raises the total unread count by exactly one |
| ChatWidget.Synced | static/js/chat/chat.js:1000-1005 | the sync touches no chat other than the stored ones and those the server lists |
| ChatWidget.ObjectsChangeNothing | static/js/chat/chat.js:1002 | entries that are objects never pass the `count > 0` test, so they change no counter |
| ChatWidget.AsServerValues | apps/chat/views.py:61-98 | the unread-counts endpoint sends one `{last_timestamp, total_count}` object per sender and one for the group |
| ChatWidget.SyncWithServerIsInert | static/js/chat/chat.js:993-1007 | because the server sends objects where the page expects numbers, syncing with the server never changes any unread counter |
| ChatWidget.SyncNumber | static/js/chat/chat.js:1000-1005 | a numeric count replaces the counter when it is positive and leaves it otherwise |
| ChatWidget.Loaded | static/js/chat/chat.js:43-51 | stored counters are loaded as they are, and missing or unreadable storage gives no counters |
| ChatWidget.ToSend | static/js/chat/chat.js:1141-1146 | a message is sent unless its trimmed text is empty and no file is selected, with the trimmed text and the selected file |
| ChatWidget.BlankNotSent | static/js/chat/chat.js:1143-1146 | a message of blanks alone and no file is not sent |
| ChatWidget.AllBlankTrimsAway | static/js/chat/chat.js:1143 | trimming a text of blanks alone leaves nothing |
| ChatWidget.Widget.constructor | static/js/chat/chat.js:10-12 | the widget starts with no chat open, no file selected and the counters loaded from storage |
| ChatWidget.Widget.LoadUnreadFromStorage | static/js/chat/chat.js:43-51 | loading replaces the counters with the stored ones and changes nothing else |
| ChatWidget.Widget.SaveUnreadToStorage | static/js/chat/chat.js:53-55 | saving stores the counters under the unread key and changes nothing else |
| ChatWidget.Widget.OnStorageEvent | static/js/chat/chat.js:60-73 | the shared storage holds the other tab's write, its readable counters under the unread key replace this tab's counters, and any other write leaves them |
| ChatWidget.Widget.IsCurrentChatActive | static/js/chat/chat.js:36-38 | a chat is active exactly when its id is the open chat's, or "null" while no chat is open |
| ChatWidget.Widget.IncrementBadge | static/js/chat/chat.js:80-92 | a new message bumps its chat's counter and stores the counters |
| ChatWidget.Widget.OnPrivateMessage | static/js/chat/chat.js:558-562 | another user's message to a chat that is not open bumps that chat's counter, and any other message changes none |
| ChatWidget.Widget.OnGroupMessage | static/js/chat/chat.js:634-644 | another user's group message while the group chat is closed bumps the group counter, and any other changes none |
| ChatWidget.SeenAfter | static/js/chat/chat.js:766-770 | the last-seen record gains the chat's time and keeps every other chat's; nothing stored starts a new record, and text that is not JSON throws |
| ChatWidget.Widget.ClearUnreadBadge | static/js/chat/chat.js:750-771 | clearing zeroes and stores the open chat's counter and records the time it was read under "chatLastSeen"; it stops after storing the counters when that record is not JSON, and does nothing for a chat that is not open |
| ChatWidget.Widget.OpenChat | static/js/chat/chat.js:660-681 | opening a private chat makes it the open one, closes the group chat and zeroes its counter, storing the counters and the chat's read time under "chatLastSeen" when that record is JSON |
| ChatWidget.Widget.OpenGroupChat | static/js/chat/chat.js:687-706 | opening the group chat makes it the open one and zeroes the group counter, storing the counters and the group's read time under "chatLastSeen" when that record is JSON |
| ChatWidget.Widget.ShowUsersList | static/js/chat/chat.js:924-941 | the users list closes every chat and leaves the counters and storage as they were |
| ChatWidget.Widget.CloseWidget | static/js/chat/chat.js:328-346 | closing the widget zeroes the open chat's counter, if any, storing the counters and that chat's read time as clearing does, and closes every chat, unless marking the chat read throws, which leaves it open |
| ChatWidget.Widget.SyncWithServer | static/js/chat/chat.js:993-1007 | the counters become the server sync of the old ones and are stored |
| ChatWidget.Widget.TotalUnread | static/js/chat/chat.js:101-105 | the summing loop computes the total of all counters |
| ChatWidget.Widget.HandleFileSelect | static/js/chat/chat.js:240-257 | a file above the 10 MB limit is refused and leaves the selection as it was; any other becomes the selected file |
| ChatWidget.Widget.Deliver | static/js/chat/chat.js:1176-1195 | the message goes to the group connection or the open private chat's when it is open, a closed one throws and keeps the text and the file, and no chat open sends nothing; each call that does not throw clears the box and the selection |
| ChatWidget.Widget.EditDraft | static/js/chat/chat.js:1142 | typing sets the text in the message box and changes nothing else |
| ChatWidget.Widget.SendMessage | static/js/chat/chat.js:1141-1204 | blank text with no file sends nothing and changes nothing; otherwise the trimmed text and the file, never above the limit, go out on the open chat's connection, nothing goes out with no chat open, a closed connection throws and keeps text and file, and every call that does not throw clears both |
| ChatWidget.ActiveById | static/js/chat/chat.js:36-38 | a numeric user id is active exactly when its chat is the open one |
| ChatWidget.OpenThenReceive | static/js/chat/chat.js:558-681 | a message that arrives on a chat just opened is not counted: that chat's counter stays at zero |

## Left out

- I/O of every kind: the database engine, the cache back end, HTTP, `localStorage`, the chat's WebSockets, heartbeats and timers, the DOM and the HTML templates. Tables are maps and sequences in `Db.Database`, the cache is `Cache.Store`, browser storage is a map field of the page classes, and a server reply is a parameter.
- The clock: `now()` and `date.today()` are parameters; the `created_at`/`updated_at` stamps the ORM sets are not modelled, so they never appear in a diff.
- Concurrency: thread interleavings are not modelled. `select_for_update` and `cache.add` are single atomic steps, and the actor slot is one slot per thread id.
- Reconcile.CheckAndCreateNotifications: PostgreSQL's refusal (`DataError`) of a message longer than the 255-character `varchar` is not modelled; the per-employee text passes that length once a document's type and number together exceed 201 characters or a permit's type exceeds 203 (`Reconcile.DocumentMessageFits`, `Reconcile.PermitMessageFits`), and the model then stores the long text.
- Sweep.CheckExpiringDocuments: PostgreSQL's `DataError` for a message over 255 characters is not modelled; the batch text is one character longer than the per-employee one (type and number over 200, a permit type over 202), and one such row makes the whole `bulk_create` fail, where the model inserts every row.
- Sweep.NotificationCommand: the same `DataError` of its `bulk_create` for a message over 255 characters is not modelled.
- Sweep.DecreaseDaysLeft: PostgreSQL's `DataError` for an aged message over 255 characters (type and number together over about 224 characters) is not modelled; there the `bulk_update` fails and nothing is updated or deleted, where the model ages every row.
- Cache eviction and Django's cascade internals beyond the stated `on_delete` rules (`Db.Database.DeleteEmployeeCascade`).
- Database type conversion on save: outside `CsvImport`, `DateField` and `IntegerField` values are held already converted, and a write the database refuses (a constraint or a negative age) is the parameter `writeOk` of the save methods.
- Dates.Horizon: every member that takes `today` (`Dates.Horizon` and `Dates.HorizonSpan`, the `Signals` hooks, `Saves`, `Reconcile`, `Sweep` and the `Forms` steps) requires a year before 9999, so that `today + relativedelta(months=2)` stays within Python's dates; the `OverflowError` it raises for a `today` in November or December 9999 is not modelled, and neither are the other days of 9999.
- `Meta.ordering` and SQL grouping: rows with equal timestamps keep table order in `ChatViews.SortByTime`, and `get_unread_counts`' `GROUP BY` is a fold over the received messages.
- Ordering: only the last name, the id, the status priority and the two date annotations are sort keys; the dates are inputs of each row rather than SQL `Min`/`Max` aggregates.
- `icontains` and `lower()` fold case for ASCII and the basic Cyrillic block only, not the whole of Unicode.
- `get_filtered_employees`' pagination, cached id lists and cached counts are not modelled.
- Forms.UpsertByEmployee: the sub-record upserts of `save_to_models` are modelled as functions on the table's rows rather than ORM calls.
- Message and GroupMessage file sizes (`get_file_size_display`, `formatFileSize`) use floating point and are not modelled; the size is a natural number of bytes.
- `html_diff` (difflib), PDF export, database backups and invitation email are not part of this model.
- The JWT middleware and authentication classes (`api/middleware.py`, `api/authentications.py`, `apps/chat/middleware.py`) are not part of this model; a request is authenticated or anonymous as a parameter.
- CSV file reading and pandas in `import_employee.py`, including its name stripping and numbering removal, are not modelled; `CsvImport` starts from one row as a list of (column, cell) pairs with NaN as its own cell value.
- CsvImport.CreateEmployeeFromRow: every text that reaches a date field is taken to be refused by Django's `parse_date`; the texts `parse_date` reads that none of the import's own formats reads (the further ISO 8601 forms of Python 3.11's `date.fromisoformat`, such as `20240105`) are not modelled.
- CsvImport.AgeError: of the age column's limits only the `age >= 0` check is modelled; the small-integer upper bound, which PostgreSQL enforces and SQLite does not, and the text columns' length limits are not.
- The `\d` of the date patterns is read as the ASCII digits only.
- gettext labels are string constants.
- JavaScript strings are sequences of Unicode scalar values; UTF-16 code units and lone surrogates are not modelled, so `decodeURIComponent` never meets half a surrogate pair.
- Cookies.GetCookie models the three identical copies of `getCookie` (static/js/app.js:2-15, static/js/tasks.js:5-18, static/js/base.js:2-15) once.
- TaskPage.ParseIntRoundTrip: numbers are unbounded, so `parseInt`'s loss of precision beyond 2^53 is not modelled; `NaN` is `None`, which `JSON.stringify` sends as `null`.
- TaskPage.CardFor: a task's date fields other than the due date (`taken_at`, `created_at`, `updated_at`, `completed_at`) the `is_locked` flag and the three display names are not carried on the card.
- `formatDate`, `isOverdue` and `isExpired` use the JavaScript `Date` object and are not modelled.
- EmployeePage.ContactFormset.AddContact: `TOTAL_FORMS` is held as a number, so `parseInt` of a non-numeric counter and a missing management form are not modelled; contact values are text.
- EmployeePage.EmployeeModal.OpenModal: a network error of the lock call is a failed attempt; the rest of the modal (field filling, view modal, context menu) is DOM work and not modelled.
- ChatWidget.Widget.IncrementBadge: the 100 ms debounce is modelled as already fired, so the counters are stored on every increment; ids that are `NaN` and stored values other than a counter map are not modelled beyond being unreadable.
- ChatWidget.Synced: a server value is a number or an object; strings, booleans and `null` are not modelled.
- ChatWidget.Widget.LoadUnreadFromStorage: a `localStorage` that throws on access is not modelled; a stored value that is not JSON resets the counters.
- The profile edit and avatar upload of `base.js`, and `refreshAccessToken` (network), are not modelled.
- The second contact-formset counter of `app-htmx.js` duplicates `app.js` and is not modelled separately.
- Registration.Accounts.Register: the user model's own rules (e-mail format, unique address, the names' maximum length) are not checked, because apps/users/models.py is not part of this model.
- Registration.SignUpFieldErrors: whether the e-mail, first name and last name refuse a blank value is the parameter `blank`, the `blank` flags of the user model's fields; apps/users/models.py is not part of this model, so neither choice is promised (Django's `AbstractUser` allows blank names and, when the custom model keeps its `email`, a blank e-mail).
- Registration.ValidateSignUp: the same `blank` parameter decides whether a blank e-mail or name is accepted and handed on as "".
- Registration.SignUpComplete: the same `blank` parameter decides whether its e-mail and names must be non-blank.
- Registration.CharField: JSON `null` and values that are not strings (numbers, lists) are not modelled; a field is missing or a string.
- Text.DecimalValue: the digits `int()` accepts are those of Unicode 15.0's decimal-digit category; a Python built on another Unicode version may accept a slightly different set.
- TaskBoard.ListTasks: ids are unbounded, so the database's refusal of an id outside its integer range is not modelled.
- The `Contact` model (apps/main/models.py:211-225) and the contact formset save that follows `save_to_models` are not modelled; Forms.SaveSubRecords ends with the sanepid step.
- Forms.SaveSubRecords: the History rows name the ambient user, the owner's text is the form's first and last name, and the hooks read the dismissal from the form's status; `created_at`/`updated_at` do not appear.
- ChatWidget.SeenAfter: a `chatLastSeen` entry holding an object of counters, or JSON that is not an object, is restarted from the opened chat alone, whereas the page would keep an object's other entries beside the new time.
- ChatWidget.Widget.SendMessage: `fileToBase64` is taken to succeed; the send sound and the upload indicator are DOM work and not modelled.
- ChatWidget.Widget.OpenChat: loading the chat's messages is network work and not modelled; only the badge and the open chat change.

## Findings

| source | as written | input that shows it | evidently intended | confidence | as-written member | corrected member |
|---|---|---|---|---|---|---|
| apps/main/signals.py:62 | `instance.valid_until.date()` is called on a `DateField` value, which is a `date` with no `date()` method, so the post-save hook raises `AttributeError` for every document of a working employee saved with a plain `date`, as the edit form's `save_to_models` does (likewise `end_date.date()` for permits at apps/main/signals.py:75); inside `save_to_models` the failing `update_or_create` is rolled back and the permit, card, contract, sanepid and contact saves after it never run | a document valid until 2024-04-10 of a working employee, saved on 2024-03-01 | compare the stored date itself with the two-month limit and delete the document's notifications only when it lies beyond | high; not executed | Signals.ExpiryHookAsWrittenFails, Signals.ExpiryHookAsWrittenExample, Forms.DatedDocumentStopsTheForm | Signals.DocumentSaved, Signals.PermitSaved, Signals.StaleComplementsWindow, Saves.SaveDocument, Forms.SaveSubRecords, Forms.IntendedFormCompletes, Forms.IntendedDocumentNotices |
| static/js/tasks.js:256-257 | the "take" button is drawn on every "todo" card without consulting `can_take`, so a user sees it on a task assigned to someone else and the server then refuses the change | a "todo" task assigned to user 2, untaken, viewed by user 3 | draw "take" only when `can_take` holds, as the in-progress branch at static/js/tasks.js:259 already does | medium; not executed | TaskPage.TakeShownButRefused | TaskPage.IntendedActions, TaskPage.IntendedButtonsAccepted |
