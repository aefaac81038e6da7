/** The task board: the `Task` record and its permission predicates
    (apps/main/models.py), the REST update and delete rules
    (api/views.py), the per-user flags the task serializer shows and its
    creator fallback (api/serializers.py), and the task and notification
    sets the page context offers (apps/main/context_processors.py). A task
    is taken by moving it from "todo" to "in_progress"; a taken task is
    locked to its taker. */
module TaskBoard {

  import opened Outcomes
  import opened Entities
  import opened Dates
  import opened Text
  import opened Seqs

  datatype TaskStatus = Todo | InProgress | Completed

  datatype Priority = Low | Medium | High

  /** `Task.STATUS_CHOICES`: the stored code of each status. */
  function StatusCode(s: TaskStatus): (c: string)
    ensures c in {"todo", "in_progress", "completed"}
  {
    match s
    case Todo => "todo"
    case InProgress => "in_progress"
    case Completed => "completed"
  }

  function ParseStatus(c: string): (s: Option<TaskStatus>)
    ensures s.Some? <==> c in {"todo", "in_progress", "completed"}
  {
    if c == "todo" then Some(Todo)
    else if c == "in_progress" then Some(InProgress)
    else if c == "completed" then Some(Completed)
    else None
  }

  /** The status codes and the statuses correspond one to one. */
  lemma StatusCodeRoundTrip(s: TaskStatus, c: string)
    ensures ParseStatus(StatusCode(s)) == Some(s)
    ensures ParseStatus(c).Some? ==> StatusCode(ParseStatus(c).value) == c
  {
  }

  datatype Task = Task(
    id: Id,
    title: string,
    description: Option<string>,
    status: TaskStatus,
    priority: Priority,
    assignedTo: Option<UserId>,
    createdBy: UserId,
    takenBy: Option<UserId>,
    takenAt: Option<Timestamp>,
    createdAt: Timestamp,
    updatedAt: Timestamp,
    dueDate: Option<Date>,
    completedAt: Option<Timestamp>)

  // ------------------------------------------------------------ predicates

  /** `is_locked`: someone is working on the task. */
  predicate IsLocked(t: Task) {
    t.status == InProgress && t.takenBy.Some?
  }

  /** `can_edit`: only the creator edits. */
  predicate CanEdit(t: Task, u: User) {
    t.createdBy == u.id
  }

  /** `can_take`: a task assigned to someone else is never takeable;
      otherwise a "todo" task is, and so is an in-progress one the user
      took. */
  predicate CanTake(t: Task, u: User) {
    if t.assignedTo.Some? && t.assignedTo.value != u.id then false
    else t.status == Todo || (t.status == InProgress && t.takenBy == Some(u.id))
  }

  /** `can_delete`: superusers only. */
  predicate CanDelete(u: User) {
    u.isSuperuser
  }

  /** A user can take a task exactly when it is not assigned to someone
      else and it is either "todo" or locked by that very user. */
  lemma CanTakeCases(t: Task, u: User)
    ensures CanTake(t, u) <==>
      (t.assignedTo.None? || t.assignedTo == Some(u.id)) && (t.status == Todo || (IsLocked(t) && t.takenBy == Some(u.id)))
  {
  }

  // ----------------------------------------------------------------- update

  /** The fields a PUT or PATCH body carries; `None` is an absent key. */
  datatype TaskChanges = TaskChanges(
    title: Option<string>,
    description: Option<Option<string>>,
    status: Option<TaskStatus>,
    priority: Option<Priority>,
    assignedTo: Option<Option<UserId>>,
    dueDate: Option<Option<Date>>)

  /** `set(validated_data.keys()) == {'status'}`. */
  predicate OnlyStatus(c: TaskChanges) {
    c.status.Some? && c.title.None? && c.description.None? && c.priority.None? && c.assignedTo.None? && c.dueDate.None?
  }

  function Pick<T>(change: Option<T>, current: T): T {
    if change.Some? then change.value else current
  }

  /** The serializer writes every field the body carries onto the task and
      saves it; `auto_now` stamps `updated_at`. */
  function Apply(t: Task, c: TaskChanges, now: Timestamp): (r: Task)
    ensures r.id == t.id && r.createdBy == t.createdBy && r.takenBy == t.takenBy && r.takenAt == t.takenAt
    ensures r.completedAt == t.completedAt && r.createdAt == t.createdAt && r.updatedAt == now
    ensures c.status.Some? ==> r.status == c.status.value
    ensures c.status.None? ==> r.status == t.status
  {
    t.(title := Pick(c.title, t.title), description := Pick(c.description, t.description),
       status := Pick(c.status, t.status), priority := Pick(c.priority, t.priority),
       assignedTo := Pick(c.assignedTo, t.assignedTo), dueDate := Pick(c.dueDate, t.dueDate), updatedAt := now)
  }

  const AuthRequired: string := "Потрібна автентифікація"
  const AuthorOnly: string := "Тільки автор може редагувати це завдання"
  const AdminOnly: string := "Тільки адміністратор може видаляти завдання"
  const NotTodo: string := "Завдання вже не в статусі 'todo'"
  const TakenByOther: string := "Це завдання вже хтось виконує"
  const AssignedToOther: string := "Це завдання призначене іншому користувачу"

  /** Why a request on a task fails: 404, 403 or 400. */
  datatype TaskError = NotFound | PermissionDenied(message: string) | Rejected(detail: string)

  /** The status a request moves the task to: the body's, or the current one. */
  function NewStatus(t: Task, c: TaskChanges): TaskStatus {
    Pick(c.status, t.status)
  }

  /** `perform_update` on a task read as `t`. */
  function UpdateOutcome(t: Task, who: Requester, c: TaskChanges, now: Timestamp): Result<Task, TaskError> {
    if !who.Authenticated? then Err(PermissionDenied(AuthRequired))
    else if !CanEdit(t, who.user) && !OnlyStatus(c) then Err(PermissionDenied(AuthorOnly))
    else match NewStatus(t, c)
      case InProgress =>
        if t.status != Todo then Err(Rejected(NotTodo))
        else if t.takenBy.Some? && t.takenBy.value != who.user.id then Err(Rejected(TakenByOther))
        else if t.assignedTo.Some? && t.assignedTo.value != who.user.id then Err(Rejected(AssignedToOther))
        else Ok(Apply(t, c, now).(takenBy := Some(who.user.id), takenAt := Some(now)))
      case Completed => Ok(Apply(t, c, now).(completedAt := Some(now)))
      case Todo =>
        if t.status == InProgress then Ok(Apply(t, c, now).(takenBy := None, takenAt := None))
        else Ok(Apply(t, c, now))
  }

  /** The task table, by primary key. */
  class Board {
    var tasks: map<Id, Task>

    constructor ()
      ensures tasks == map[]
    {
      tasks := map[];
    }

    /** `perform_update`, after `get_object`: the row is read, the caller's
        rights checked, and the row read again under `select_for_update`
        before the status rules run; a failed check writes nothing. */
    method PerformUpdate(id: Id, who: Requester, c: TaskChanges, now: Timestamp) returns (r: Result<(), TaskError>)
      modifies this
      ensures id !in old(tasks) ==> r == Err(NotFound) && tasks == old(tasks)
      ensures id in old(tasks) ==> var out := UpdateOutcome(old(tasks)[id], who, c, now);
        (out.Ok? ==> r == Ok(()) && tasks == old(tasks)[id := out.value])
        && (out.Err? ==> r == Err(out.error) && tasks == old(tasks))
    {
      if id !in tasks {
        return Err(NotFound);
      }
      var task := tasks[id];
      if !who.Authenticated? {
        return Err(PermissionDenied(AuthRequired));
      }
      var user := who.user;
      if !CanEdit(task, user) && !OnlyStatus(c) {
        return Err(PermissionDenied(AuthorOnly));
      }
      var newStatus := Pick(c.status, task.status);
      var saved := Apply(task, c, now);
      if newStatus == InProgress {
        var locked := tasks[id];
        if locked.status != Todo {
          return Err(Rejected(NotTodo));
        }
        if locked.takenBy.Some? && locked.takenBy.value != user.id {
          return Err(Rejected(TakenByOther));
        }
        if locked.assignedTo.Some? && locked.assignedTo.value != user.id {
          return Err(Rejected(AssignedToOther));
        }
        saved := saved.(takenBy := Some(user.id), takenAt := Some(now));
      } else if newStatus == Completed {
        saved := saved.(completedAt := Some(now));
      } else {
        var locked := tasks[id];
        if locked.status == InProgress {
          saved := saved.(takenBy := None, takenAt := None);
        }
      }
      tasks := tasks[id := saved];
      r := Ok(());
    }

    /** `perform_destroy`, after `get_object`: only a superuser deletes. */
    method PerformDestroy(id: Id, who: Requester) returns (r: Result<(), TaskError>)
      modifies this
      ensures r.Ok? <==> id in old(tasks) && who.Authenticated? && CanDelete(who.user)
      ensures id !in old(tasks) ==> r == Err(NotFound)
      ensures id in old(tasks) && !who.Authenticated? ==> r == Err(PermissionDenied(AuthRequired))
      ensures id in old(tasks) && who.Authenticated? && !CanDelete(who.user) ==> r == Err(PermissionDenied(AdminOnly))
      ensures r.Ok? ==> tasks == old(tasks) - {id}
      ensures r.Err? ==> tasks == old(tasks)
    {
      if id !in tasks {
        return Err(NotFound);
      }
      if !who.Authenticated? {
        return Err(PermissionDenied(AuthRequired));
      }
      if !CanDelete(who.user) {
        return Err(PermissionDenied(AdminOnly));
      }
      tasks := tasks - {id};
      r := Ok(());
    }
  }

  /** A user who is not the author changes nothing but the status and the
      fields the status rules stamp. */
  lemma NonAuthorChangesOnlyStatus(t: Task, who: Requester, c: TaskChanges, now: Timestamp)
    requires UpdateOutcome(t, who, c, now).Ok? && !CanEdit(t, who.user)
    ensures OnlyStatus(c)
    ensures var r := UpdateOutcome(t, who, c, now).value;
      r.title == t.title && r.description == t.description && r.priority == t.priority
      && r.assignedTo == t.assignedTo && r.dueDate == t.dueDate && r.createdBy == t.createdBy
  {
  }

  /** Taking a task succeeds exactly when the caller may change it, it is
      "todo", nobody else has taken it and it is not assigned to someone
      else; the taken task is locked to the caller from `now`. */
  lemma TakeRule(t: Task, who: Requester, c: TaskChanges, now: Timestamp)
    requires NewStatus(t, c) == InProgress
    ensures var out := UpdateOutcome(t, who, c, now);
      out.Ok? <==> (who.Authenticated? && (CanEdit(t, who.user) || OnlyStatus(c)) && t.status == Todo
        && (t.takenBy.None? || t.takenBy == Some(who.user.id))
        && (t.assignedTo.None? || t.assignedTo == Some(who.user.id)))
    ensures var out := UpdateOutcome(t, who, c, now);
      out.Ok? ==> IsLocked(out.value) && out.value.takenBy == Some(who.user.id) && out.value.takenAt == Some(now)
  {
  }

  /** The server's take rule and the `can_take` flag: a successful take was
      one `can_take` allowed, and every "todo" task nobody has taken that
      `can_take` allows the caller can be taken by a status-only request. */
  lemma TakeAgreesWithCanTake(t: Task, u: User, c: TaskChanges, now: Timestamp)
    requires NewStatus(t, c) == InProgress
    ensures UpdateOutcome(t, Authenticated(u), c, now).Ok? ==> CanTake(t, u)
    ensures CanTake(t, u) && t.status == Todo && t.takenBy.None? && OnlyStatus(c) ==>
      UpdateOutcome(t, Authenticated(u), c, now).Ok?
  {
  }

  /** An in-progress task cannot be taken again, not even by its taker,
      though `can_take` still holds for the taker. */
  lemma NoRetake(t: Task, u: User, c: TaskChanges, now: Timestamp)
    requires IsLocked(t) && t.takenBy == Some(u.id) && (t.assignedTo.None? || t.assignedTo == Some(u.id))
    requires NewStatus(t, c) == InProgress && (CanEdit(t, u) || OnlyStatus(c))
    ensures CanTake(t, u)
    ensures UpdateOutcome(t, Authenticated(u), c, now) == Err(Rejected(NotTodo))
  {
  }

  /** A request without a status keeps the current one, so while a task is
      in progress every request that names no other status fails, the
      author's edits included. */
  lemma InProgressFrozen(t: Task, who: Requester, c: TaskChanges, now: Timestamp)
    requires t.status == InProgress && (c.status.None? || c.status == Some(InProgress))
    ensures UpdateOutcome(t, who, c, now).Err?
  {
  }

  /** Once one user has taken a task, another user's take fails. */
  lemma TakeExclusive(t: Task, u1: User, u2: User, c1: TaskChanges, c2: TaskChanges, t1: Timestamp, t2: Timestamp)
    requires NewStatus(t, c1) == InProgress && UpdateOutcome(t, Authenticated(u1), c1, t1).Ok?
    requires u1.id != u2.id
    ensures var taken := UpdateOutcome(t, Authenticated(u1), c1, t1).value;
      NewStatus(taken, c2) == InProgress ==> UpdateOutcome(taken, Authenticated(u2), c2, t2).Err?
  {
  }

  /** Completing needs no particular current status or taker. */
  lemma CompleteUnconditional(t: Task, u: User, c: TaskChanges, now: Timestamp)
    requires c.status == Some(Completed) && (CanEdit(t, u) || OnlyStatus(c))
    ensures var out := UpdateOutcome(t, Authenticated(u), c, now);
      out.Ok? && out.value.status == Completed && out.value.completedAt == Some(now)
  {
  }

  /** Moving an in-progress task back to "todo" releases it, whoever asks:
      the taker is not checked. */
  lemma ReleaseByAnyone(t: Task, u: User, c: TaskChanges, now: Timestamp)
    requires t.status == InProgress && c.status == Some(Todo) && (CanEdit(t, u) || OnlyStatus(c))
    ensures var out := UpdateOutcome(t, Authenticated(u), c, now);
      out.Ok? && out.value.status == Todo && out.value.takenBy.None? && out.value.takenAt.None? && !IsLocked(out.value)
  {
  }

  // ------------------------------------------------------------ list query

  /** The `assigned_to` query parameter: "me" is the caller's id; any
      other value is converted by the foreign key's lookup with Python's
      `int()`, whose `ValueError` escapes the view. */
  function AssigneeOf(param: string, user: User): (r: Result<int, string>)
    ensures param == "me" ==> r == Ok(user.id)
    ensures param != "me" ==> (r.Ok? <==> PythonInt(param).Some?)
    ensures param != "me" && r.Ok? ==> r.value == PythonInt(param).value
    ensures r.Err? ==> r.error == "ValueError"
  {
    if param == "me" then Ok(user.id)
    else match PythonInt(param)
      case Some(n) => Ok(n)
      case None => Err("ValueError")
  }

  function AssignedTo(id: int): Task -> bool {
    (t: Task) => t.assignedTo.Some? && t.assignedTo.value == id
  }

  /** `get_queryset` of the task list: all tasks, or those assigned to the
      user the parameter names, in the table's order. */
  function ListTasks(ts: seq<Task>, query: Option<string>, user: User): (r: Result<seq<Task>, string>)
    ensures query.None? ==> r == Ok(ts)
    ensures query.Some? && AssigneeOf(query.value, user).Ok? ==>
      var id := AssigneeOf(query.value, user).value;
      r.Ok? && forall t :: t in r.value <==> t in ts && t.assignedTo.Some? && t.assignedTo.value == id
    ensures query.Some? && AssigneeOf(query.value, user).Err? ==> r == Err("ValueError")
  {
    if query.None? then Ok(ts)
    else match AssigneeOf(query.value, user)
      case Ok(id) => Ok(Filter(ts, AssignedTo(id)))
      case Err(e) => Err(e)
  }

  /** "me" and the caller's own id select the same tasks. */
  lemma ListMeIsOwnId(ts: seq<Task>, user: User)
    ensures ListTasks(ts, Some("me"), user) == ListTasks(ts, Some(NatToString(user.id)), user)
  {
    PythonIntRoundTrip(user.id);
    assert NatToString(user.id) != "me" by {
      assert AllDigits(NatToString(user.id));
      assert !IsDigit('m');
    }
  }

  /** A negative id is read without error and selects no task. */
  lemma ListNegativeIsEmpty(ts: seq<Task>, query: string, user: User)
    requires query != "me" && PythonInt(query).Some? && PythonInt(query).value < 0
    ensures ListTasks(ts, Some(query), user) == Ok([])
  {
    var id := PythonInt(query).value;
    assert ListTasks(ts, Some(query), user) == Ok(Filter(ts, AssignedTo(id)));
    FilterNone(ts, AssignedTo(id));
  }

  /** What `int()` accepts besides a bare digit string: blanks around it, a
      sign, underscores between digits, and digits of other scripts (here
      Arabic-Indic); a doubled underscore or a trailing one is refused. */
  lemma AssigneeSpellings(user: User)
    ensures AssigneeOf(" 12", user) == Ok(12)
    ensures AssigneeOf("+12", user) == Ok(12)
    ensures AssigneeOf("1_000", user) == Ok(1000)
    ensures AssigneeOf("\U{0661}\U{0662}", user) == Ok(12)
    ensures AssigneeOf("-1", user) == Ok(-1)
    ensures AssigneeOf("1__0", user).Err? && AssigneeOf("12_", user).Err?
  {
    PythonIntPadded();
    PythonIntSigns();
    PythonIntUnderscores();
    PythonIntArabicIndic();
  }

  // ------------------------------------------------------ serializer flags

  /** The flags `TaskSerializer` shows for a task: without an authenticated
      request (`None` is a serializer with no request in its context)
      editing and taking are shown as allowed and deleting is not. */
  datatype Flags = Flags(isLocked: bool, canEdit: bool, canTake: bool, canDelete: bool)

  function ShownFlags(t: Task, request: Option<Requester>): (f: Flags)
    ensures f.isLocked == IsLocked(t)
    ensures request.Some? && request.value.Authenticated? ==>
      f == Flags(IsLocked(t), CanEdit(t, request.value.user), CanTake(t, request.value.user), CanDelete(request.value.user))
    ensures !(request.Some? && request.value.Authenticated?) ==> f.canEdit && f.canTake && !f.canDelete
  {
    if request.Some? && request.value.Authenticated? then
      var u := request.value.user;
      Flags(IsLocked(t), CanEdit(t, u), CanTake(t, u), CanDelete(u))
    else Flags(IsLocked(t), true, true, false)
  }

  /** The delete flag an authenticated user sees is exactly what the delete
      endpoint allows. */
  lemma DeleteFlagMatchesEndpoint(t: Task, u: User)
    ensures ShownFlags(t, Some(Authenticated(u))).canDelete <==> CanDelete(u)
  {
  }

  /** The user with the smallest id (`User.objects.first()`), if any. */
  function FirstUser(users: seq<User>): (r: Option<UserId>)
    ensures r.None? <==> users == []
    ensures r.Some? ==> (exists u :: u in users && u.id == r.value) && forall u :: u in users ==> r.value <= u.id
  {
    if users == [] then None
    else
      var rest := FirstUser(users[1..]);
      if rest.None? || users[0].id <= rest.value then Some(users[0].id) else rest
  }

  /** `TaskCreateUpdateSerializer.create`: the creator is the authenticated
      caller, or else the first user; with no user at all the insert fails
      on the non-null `created_by`. */
  function CreatorOf(request: Option<Requester>, users: seq<User>): (r: Option<UserId>)
    ensures request.Some? && request.value.Authenticated? ==> r == Some(request.value.user.id)
    ensures !(request.Some? && request.value.Authenticated?) ==> r == FirstUser(users)
  {
    if request.Some? && request.value.Authenticated? then Some(request.value.user.id) else FirstUser(users)
  }

  // ------------------------------------------------------- page context

  function HasStatus(s: TaskStatus): Task -> bool {
    (t: Task) => t.status == s
  }

  /** `available_tasks`: a superuser sees the completed tasks, another
      signed-in user the tasks assigned to them, an anonymous visitor none. */
  function AvailableTasks(who: Requester, ts: seq<Task>): (r: seq<Task>)
    ensures who.Anonymous? ==> r == []
    ensures who.Authenticated? && who.user.isSuperuser ==> forall t :: t in r <==> t in ts && t.status == Completed
    ensures who.Authenticated? && !who.user.isSuperuser ==> forall t :: t in r <==> t in ts && t.assignedTo == Some(who.user.id)
  {
    if who.Authenticated? && who.user.isSuperuser then Filter(ts, HasStatus(Completed))
    else if who.Authenticated? then Filter(ts, AssignedTo(who.user.id))
    else []
  }

  /** `expired_docs`: every notification for a signed-in user, none otherwise. */
  function ExpiredDocs(who: Requester, ns: seq<Notification>): (r: seq<Notification>)
    ensures who.Authenticated? ==> r == ns
    ensures who.Anonymous? ==> r == []
  {
    if who.Authenticated? then ns else []
  }
}
