/** The Notification record of apps/notification: its type codes, the bounds
    its columns impose, its string form, and what the CASCADE foreign keys do
    to the notification table when an employee, document or permit row goes. */
module Notices {

  import opened Outcomes
  import opened Text
  import opened Seqs
  import opened Entities

  /** Stored text of the notification type. */
  function TypeCode(k: NotificationType): (s: string)
    ensures s in {"document", "work_permit"}
  {
    match k
    case DocumentNotice => "document"
    case PermitNotice => "work_permit"
  }

  /** The choice list accepts exactly the two codes. */
  function ParseType(s: string): (k: Option<NotificationType>)
    ensures k.Some? <==> s in {"document", "work_permit"}
    ensures k.Some? ==> TypeCode(k.value) == s
  {
    if s == "document" then Some(DocumentNotice)
    else if s == "work_permit" then Some(PermitNotice)
    else None
  }

  lemma TypeCodeRoundTrip(k: NotificationType)
    ensures ParseType(TypeCode(k)) == Some(k)
  {
  }

  /** `message` is a `varchar(255)`. */
  const MessageMaxLength: nat := 255

  // ----------------------------------------------------------------- __str__

  /** Django's default `str()` of a model row without its own `__str__`. */
  function DefaultModelStr(model: string, id: Id): string {
    model + " object (" + NatToString(id) + ")"
  }

  /** The object the text names: the document when there is one, else the
      permit, else Python's `None`. */
  function SubjectStr(doc: Option<Document>, permit: Option<WorkPermit>): (s: string)
    ensures doc.Some? ==> s == DefaultModelStr("Document", doc.value.id)
    ensures doc.None? && permit.Some? ==> s == DefaultModelStr("WorkPermit", permit.value.id)
    ensures doc.None? && permit.None? ==> s == "None"
  {
    if doc.Some? then DefaultModelStr("Document", doc.value.id)
    else if permit.Some? then DefaultModelStr("WorkPermit", permit.value.id)
    else "None"
  }

  function OptIntStr(i: Option<int>): string {
    match i
    case Some(v) => IntToString(v)
    case None => "None"
  }

  const StrPrefix: string := "У працівника "

  /** `str(notification)`, given the rows its foreign keys point at. */
  function NotificationStr(n: Notification, employee: Employee, doc: Option<Document>, permit: Option<WorkPermit>): (s: string)
    ensures StartsWith(s, StrPrefix + FullName(employee) + ", ")
  {
    var head := StrPrefix + FullName(employee) + ", ";
    var s := head + "закінчується термін дії документу " + SubjectStr(doc, permit)
      + " через " + OptIntStr(n.daysLeft) + " днів";
    assert s[..|head|] == head;
    s
  }

  /** The string form names the document whenever the notification has one,
      whatever permit it may also carry. */
  lemma StrPrefersDocument(n: Notification, e: Employee, d: Document, p1: Option<WorkPermit>, p2: Option<WorkPermit>)
    ensures NotificationStr(n, e, Some(d), p1) == NotificationStr(n, e, Some(d), p2)
  {
  }

  // ---------------------------------------------------------------- cascades

  /** Notifications left after an employee row is deleted. */
  function AfterEmployeeDeleted(ns: seq<Notification>, id: Id): (r: seq<Notification>)
    ensures forall n :: n in r <==> n in ns && n.employee != id
  {
    Filter(ns, (n: Notification) => n.employee != id)
  }

  /** Notifications left after a document row is deleted. */
  function AfterDocumentDeleted(ns: seq<Notification>, id: Id): (r: seq<Notification>)
    ensures forall n :: n in r <==> n in ns && n.document != Some(id)
  {
    Filter(ns, (n: Notification) => n.document != Some(id))
  }

  /** Notifications left after a work-permit row is deleted. */
  function AfterPermitDeleted(ns: seq<Notification>, id: Id): (r: seq<Notification>)
    ensures forall n :: n in r <==> n in ns && n.workPermit != Some(id)
  {
    Filter(ns, (n: Notification) => n.workPermit != Some(id))
  }

  /** Deleting a row twice removes nothing more the second time. */
  lemma CascadeIdempotent(ns: seq<Notification>, id: Id)
    ensures AfterDocumentDeleted(AfterDocumentDeleted(ns, id), id) == AfterDocumentDeleted(ns, id)
    ensures AfterPermitDeleted(AfterPermitDeleted(ns, id), id) == AfterPermitDeleted(ns, id)
    ensures AfterEmployeeDeleted(AfterEmployeeDeleted(ns, id), id) == AfterEmployeeDeleted(ns, id)
  {
    FilterAll(AfterDocumentDeleted(ns, id), (n: Notification) => n.document != Some(id));
    FilterAll(AfterPermitDeleted(ns, id), (n: Notification) => n.workPermit != Some(id));
    FilterAll(AfterEmployeeDeleted(ns, id), (n: Notification) => n.employee != id);
  }
}
