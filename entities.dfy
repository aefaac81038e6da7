/** The records of the HR application: employees and their dated
    sub-records, users and the requester of a call, notifications, and
    History audit rows. Every table row carries its primary key. */
module Entities {

  import opened Outcomes
  import opened Dates
  import opened Text

  type Id = nat
  type UserId = nat

  /** A moment in time, in seconds; clocks are parameters of every operation. */
  type Timestamp = int

  // ------------------------------------------------------------- employees

  /** The status value that marks an employee as dismissed. */
  const Dismissed: string := "Zwolniony"
  const Working: string := "Pracujący"
  const EmploymentContract: string := "Umowa o prace"
  const PositionChange: string := "Zmiana stanowiska"

  /** `Employee.WORKING_STATUS_CHOICES`: each stored status with its label,
      a colour code. */
  const WorkingStatusChoices: seq<(string, string)> := [
    (Working, "0080004D"), (Dismissed, "FFA5004D"), (EmploymentContract, "0000FF4D"), (PositionChange, "FFFFFF4D")]

  datatype Employee = Employee(
    id: Id,
    firstName: string,
    lastName: string,
    age: Option<nat>,
    isStudent: Option<bool>,
    pesel: Option<string>,
    peselUrk: Option<bool>,
    workplace: Option<string>,
    pit2: Option<bool>,
    workingStatus: Option<string>,
    additionalInformation: Option<string>,
    createdAt: Timestamp,
    updatedAt: Timestamp,
    studentEndDate: Option<Date>)

  predicate IsDismissed(e: Employee) { e.workingStatus == Some(Dismissed) }

  /** `str(employee)`: first name, a space, last name. */
  function EmployeeStr(e: Employee): (s: string)
    ensures |s| == |e.firstName| + 1 + |e.lastName|
    ensures s[..|e.firstName|] == e.firstName && s[|e.firstName|] == ' '
  {
    e.firstName + " " + e.lastName
  }

  /** `employee.get_full_name`: last name first. */
  function FullName(e: Employee): (s: string)
    ensures |s| == |e.firstName| + 1 + |e.lastName|
  {
    e.lastName + " " + e.firstName
  }

  /** The full name is the display string of the employee with the two names exchanged. */
  lemma FullNameIsSwappedStr(e: Employee)
    ensures FullName(e) == EmployeeStr(e.(firstName := e.lastName, lastName := e.firstName))
  {
  }

  datatype EmploymentPeriod = EmploymentPeriod(id: Id, employee: Id, startDate: Date, endDate: Option<Date>)

  datatype Document = Document(
    id: Id, employee: Id, docType: Option<string>, number: Option<string>, validUntil: Option<Date>)

  datatype WorkPermit = WorkPermit(id: Id, employee: Id, docType: Option<string>, endDate: Option<Date>)

  datatype CardSubmission = CardSubmission(id: Id, employee: Id, docType: Option<string>, startDate: Option<Date>)

  datatype Contract = Contract(id: Id, employee: Id, contractType: string)

  datatype Sanepid = Sanepid(
    id: Id, employee: Id, status: Option<string>, docType: Option<string>, endDate: Option<Date>)

  // ---------------------------------------------------------------- users

  datatype User = User(id: UserId, email: string, firstName: string, lastName: string, isSuperuser: bool)

  /** Who is making a request. */
  datatype Requester = Anonymous | Authenticated(user: User) {
    predicate IsAuthenticated() { Authenticated? }
  }

  // --------------------------------------------------------- notifications

  /** `Notification.NOTIFICATION_TYPES`. */
  datatype NotificationType = DocumentNotice | PermitNotice

  datatype Notification = Notification(
    employee: Id,
    kind: NotificationType,
    document: Option<Id>,
    workPermit: Option<Id>,
    message: Option<string>,
    daysLeft: Option<int>,
    createdAt: Timestamp)

  // --------------------------------------------------------------- history

  /** The model a History row is about (its content type). */
  datatype ModelKind =
    EmployeeModel | PeriodModel | DocumentModel | PermitModel | CardModel | ContractModel | SanepidModel

  datatype Action = Created | Updated | Deleted

  datatype HistoryEntry = HistoryEntry(
    model: ModelKind,
    objectId: Id,
    fieldName: string,
    oldValue: Option<string>,
    newValue: Option<string>,
    action: Option<Action>,
    changedBy: Option<UserId>,
    changedAt: Timestamp)

  /** The stored text of each History action. */
  function ActionCode(a: Action): (s: string)
    ensures s in {"created", "updated", "deleted"}
  {
    match a
    case Created => "created"
    case Updated => "updated"
    case Deleted => "deleted"
  }

  function ParseAction(s: string): (a: Option<Action>)
    ensures a.Some? <==> s in {"created", "updated", "deleted"}
  {
    if s == "created" then Some(Created)
    else if s == "updated" then Some(Updated)
    else if s == "deleted" then Some(Deleted)
    else None
  }

  lemma ActionCodeRoundTrip(a: Action)
    ensures ParseAction(ActionCode(a)) == Some(a)
  {
  }
}
