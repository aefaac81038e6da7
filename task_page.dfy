// The task board page: the cards the page draws from `/api/auth/tasks/`,
// the buttons on each card, the three status columns, the body the task
// dialog submits, the error text of a failed request, and the initials
// shown in a card's avatar.

module TaskPage {

  import opened Outcomes
  import opened Text
  import opened Dates
  import opened Entities
  import opened TaskBoard

  // ------------------------------------------------------------------ cards

  /** One task as `TaskSerializer` renders it, reduced to what the page reads. */
  datatype Card = Card(
    id: Id,
    title: string,
    description: Option<string>,
    status: string,
    priority: string,
    assignedTo: Option<UserId>,
    dueDate: Option<string>,
    canEdit: bool,
    canTake: bool,
    canDelete: bool)

  function PriorityCode(p: Priority): (c: string)
    ensures c in {"low", "medium", "high"}
  {
    match p
    case Low => "low"
    case Medium => "medium"
    case High => "high"
  }

  /** The card the list endpoint sends for `t` to the requester. */
  function CardFor(t: Task, request: Option<Requester>): (c: Card)
    requires t.dueDate.Some? ==> Valid(t.dueDate.value)
    ensures c.id == t.id && ParseStatus(c.status) == Some(t.status)
    ensures c.assignedTo == t.assignedTo && c.description == t.description
    ensures request.Some? && request.value.Authenticated? ==>
      c.canEdit == CanEdit(t, request.value.user) && c.canTake == CanTake(t, request.value.user)
      && c.canDelete == CanDelete(request.value.user)
  {
    var f := ShownFlags(t, request);
    StatusCodeRoundTrip(t.status, StatusCode(t.status));
    Card(t.id, t.title, t.description, StatusCode(t.status), PriorityCode(t.priority), t.assignedTo,
         if t.dueDate.Some? then Some(IsoString(t.dueDate.value)) else None,
         f.canEdit, f.canTake, f.canDelete)
  }

  // ---------------------------------------------------------------- buttons

  /** The buttons `getTaskActions` puts on a card. */
  datatype Button = Take | Complete | Return | Locked | Edit | Delete

  /** The status buttons: "take" on a "todo" card; "complete" and "return"
      on an in-progress card the user may work on, a disabled lock otherwise. */
  function StatusButtons(c: Card): seq<Button> {
    if c.status == "todo" then [Take]
    else if c.status == "in_progress" then (if c.canTake then [Complete, Return] else [Locked])
    else []
  }

  /** `getTaskActions`, as written. */
  function TaskActions(c: Card): (bs: seq<Button>)
    ensures Take in bs <==> c.status == "todo"
    ensures Complete in bs <==> c.status == "in_progress" && c.canTake
    ensures Return in bs <==> c.status == "in_progress" && c.canTake
    ensures Locked in bs <==> c.status == "in_progress" && !c.canTake
    ensures Edit in bs <==> c.canEdit
    ensures Delete in bs <==> c.canDelete
    ensures c.status == "todo" ==> bs[0] == Take
    ensures c.status == "in_progress" && c.canTake ==> bs[0] == Complete && bs[1] == Return
    ensures c.canDelete ==> bs[|bs| - 1] == Delete
    ensures c.canEdit ==> bs[|bs| - (if c.canDelete then 2 else 1)] == Edit
    ensures |bs| <= 4
  {
    StatusButtons(c) + (if c.canEdit then [Edit] else []) + (if c.canDelete then [Delete] else [])
  }

  /** The status a button's PATCH asks for (`updateTaskStatus`). */
  function Target(b: Button): Option<TaskStatus> {
    match b
    case Take => Some(InProgress)
    case Complete => Some(Completed)
    case Return => Some(Todo)
    case _ => None
  }

  /** The body `{status: ...}` of a status button, as the server reads it. */
  function StatusPatch(s: TaskStatus): (c: TaskChanges)
    ensures OnlyStatus(c) && c.status == Some(s)
  {
    TaskChanges(None, None, Some(s), None, None, None)
  }

  /** The "take" button is drawn on every "todo" card, including one assigned
      to another user, whom the server then refuses. */
  lemma TakeShownButRefused(t: Task, u: User, now: Timestamp)
    requires t.dueDate.Some? ==> Valid(t.dueDate.value)
    requires t.status == Todo && t.takenBy.None?
    requires t.assignedTo.Some? && t.assignedTo.value != u.id
    ensures Take in TaskActions(CardFor(t, Some(Authenticated(u))))
    ensures !CardFor(t, Some(Authenticated(u))).canTake
    ensures UpdateOutcome(t, Authenticated(u), StatusPatch(InProgress), now) == Err(Rejected(AssignedToOther))
  {
  }

  /** `getTaskActions` with the "take" button drawn only when the card says
      the user may take the task, as the in-progress branch already does. */
  function IntendedActions(c: Card): (bs: seq<Button>)
    ensures Take in bs <==> c.status == "todo" && c.canTake
    ensures Complete in bs <==> c.status == "in_progress" && c.canTake
    ensures Return in bs <==> c.status == "in_progress" && c.canTake
    ensures Locked in bs <==> c.status == "in_progress" && !c.canTake
    ensures Edit in bs <==> c.canEdit
    ensures Delete in bs <==> c.canDelete
  {
    var status := if c.status == "todo" then (if c.canTake then [Take] else []) else StatusButtons(c);
    status + (if c.canEdit then [Edit] else []) + (if c.canDelete then [Delete] else [])
  }

  /** The two differ only in the "take" button of a card the user may not take. */
  lemma IntendedDiffersOnlyOnTake(c: Card)
    ensures c.status != "todo" || c.canTake ==> IntendedActions(c) == TaskActions(c)
    ensures c.status == "todo" && !c.canTake ==> TaskActions(c) == [Take] + IntendedActions(c)
  {
  }

  /** Every status button the corrected page shows to a signed-in user is
      one the server carries out: a "take" is never refused for being
      assigned to someone else or no longer "todo", and is accepted outright
      when nobody holds the task; "complete" and "return" always are. */
  lemma IntendedButtonsAccepted(t: Task, u: User, b: Button, now: Timestamp)
    requires t.dueDate.Some? ==> Valid(t.dueDate.value)
    requires b in IntendedActions(CardFor(t, Some(Authenticated(u)))) && Target(b).Some?
    ensures var out := UpdateOutcome(t, Authenticated(u), StatusPatch(Target(b).value), now);
      out != Err(Rejected(AssignedToOther)) && out != Err(Rejected(NotTodo))
      && (b != Take || t.takenBy.None? || t.takenBy == Some(u.id) ==> out.Ok?)
  {
    var c := CardFor(t, Some(Authenticated(u)));
    if b == Take {
      assert c.status == "todo" && c.canTake;
      StatusCodeRoundTrip(t.status, c.status);
    }
  }

  // ---------------------------------------------------------------- columns

  /** `tasks.filter(t => t.status === code)`. */
  function Column(tasks: seq<Card>, code: string): (col: seq<Card>)
    ensures |col| <= |tasks|
    ensures forall x :: x in col <==> x in tasks && x.status == code
  {
    if tasks == [] then []
    else (if tasks[0].status == code then [tasks[0]] else []) + Column(tasks[1..], code)
  }

  predicate KnownStatus(c: Card) { ParseStatus(c.status).Some? }

  /** Every card with a known status lands in exactly one column, and so the
      three columns together hold exactly the list. */
  lemma {:induction false} ColumnsPartition(tasks: seq<Card>)
    requires forall k :: 0 <= k < |tasks| ==> KnownStatus(tasks[k])
    ensures multiset(Column(tasks, "todo")) + multiset(Column(tasks, "in_progress"))
      + multiset(Column(tasks, "completed")) == multiset(tasks)
  {
    if tasks != [] {
      var h, rest := tasks[0], tasks[1..];
      assert forall k :: 0 <= k < |rest| ==> rest[k] == tasks[k + 1];
      ColumnsPartition(rest);
      assert KnownStatus(tasks[0]);
      assert tasks == [h] + rest;
      PartitionStep(h, rest);
    }
  }

  /** One more card adds itself to exactly one of the three columns. */
  lemma PartitionStep(h: Card, rest: seq<Card>)
    requires KnownStatus(h)
    ensures multiset(Column([h] + rest, "todo")) + multiset(Column([h] + rest, "in_progress"))
      + multiset(Column([h] + rest, "completed"))
      == multiset{h} + (multiset(Column(rest, "todo")) + multiset(Column(rest, "in_progress"))
      + multiset(Column(rest, "completed")))
  {
    var tasks := [h] + rest;
    assert tasks[0] == h && tasks[1..] == rest;
    ColumnStep(tasks, "todo");
    ColumnStep(tasks, "in_progress");
    ColumnStep(tasks, "completed");
  }

  lemma ColumnStep(tasks: seq<Card>, code: string)
    requires tasks != []
    ensures multiset(Column(tasks, code)) ==
      (if tasks[0].status == code then multiset{tasks[0]} else multiset{}) + multiset(Column(tasks[1..], code))
  {
  }

  /** A card whose status is none of the three is drawn in no column. */
  lemma UnknownStatusHidden(tasks: seq<Card>, c: Card)
    requires !KnownStatus(c)
    ensures c !in Column(tasks, "todo") && c !in Column(tasks, "in_progress") && c !in Column(tasks, "completed")
  {
  }

  /** The cards of a list response. */
  function Cards(ts: seq<Task>, request: Option<Requester>): (cs: seq<Card>)
    requires forall k :: 0 <= k < |ts| ==> (ts[k].dueDate.Some? ==> Valid(ts[k].dueDate.value))
    ensures |cs| == |ts|
    ensures forall k :: 0 <= k < |ts| ==> cs[k] == CardFor(ts[k], request)
  {
    seq(|ts|, k requires 0 <= k < |ts| => CardFor(ts[k], request))
  }

  /** The three counters shown above the columns add up to the number of
      tasks the server listed. */
  lemma CountsAddUp(ts: seq<Task>, request: Option<Requester>)
    requires forall k :: 0 <= k < |ts| ==> (ts[k].dueDate.Some? ==> Valid(ts[k].dueDate.value))
    ensures var cs := Cards(ts, request);
      |Column(cs, "todo")| + |Column(cs, "in_progress")| + |Column(cs, "completed")| == |ts|
  {
    var cs := Cards(ts, request);
    forall k | 0 <= k < |cs|
      ensures KnownStatus(cs[k])
    {
      assert cs[k] == CardFor(ts[k], request);
    }
    ColumnsPartition(cs);
    assert |multiset(cs)| == |cs|;
  }

  /** The three columns of the board and their counters. */
  class Columns {
    var todo: seq<Card>
    var inProgress: seq<Card>
    var completed: seq<Card>
    var todoCount: nat
    var inProgressCount: nat
    var completedCount: nat

    constructor ()
      ensures todo == [] && inProgress == [] && completed == []
      ensures todoCount == 0 && inProgressCount == 0 && completedCount == 0
    {
      todo, inProgress, completed := [], [], [];
      todoCount, inProgressCount, completedCount := 0, 0, 0;
    }

    /** `renderTasks`: each column is redrawn from the list, and each counter
        is its column's length. */
    method Render(tasks: seq<Card>)
      modifies this
      ensures todo == Column(tasks, "todo") && inProgress == Column(tasks, "in_progress")
        && completed == Column(tasks, "completed")
      ensures todoCount == |todo| && inProgressCount == |inProgress| && completedCount == |completed|
    {
      todo := Column(tasks, "todo");
      inProgress := Column(tasks, "in_progress");
      completed := Column(tasks, "completed");
      todoCount, inProgressCount, completedCount := |todo|, |inProgress|, |completed|;
    }
  }

  // ----------------------------------------------------------- task dialog

  /** The values of the task dialog's fields (`FormData.get`). */
  datatype TaskForm = TaskForm(title: string, description: string, priority: string, dueDate: string, assignedTo: string)

  /** The JSON body the dialog sends; `None` is `null` or, for the status,
      an absent key. */
  datatype Payload = Payload(
    title: string,
    description: Option<string>,
    priority: string,
    dueDate: Option<string>,
    assignedTo: Option<int>,
    status: Option<string>)

  predicate IsHexDigit(c: char) { IsDigit(c) || 'a' <= c <= 'f' || 'A' <= c <= 'F' }

  function HexDigitValue(c: char): (n: nat)
    requires IsHexDigit(c)
    ensures n < 16
  {
    if IsDigit(c) then DigitValue(c)
    else if 'a' <= c <= 'f' then c as int - 'a' as int + 10
    else c as int - 'A' as int + 10
  }

  /** The longest run of characters satisfying `p` at the start of `s`. */
  function Run(s: string, p: char -> bool): (r: string)
    ensures |r| <= |s| && r == s[..|r|]
    ensures forall i :: 0 <= i < |r| ==> p(r[i])
    ensures |r| < |s| ==> !p(s[|r|])
  {
    if s != [] && p(s[0]) then [s[0]] + Run(s[1..], p) else []
  }

  function HexValue(s: string): nat
    requires forall i :: 0 <= i < |s| ==> IsHexDigit(s[i])
  {
    if s == [] then 0 else HexValue(s[..|s| - 1]) * 16 + HexDigitValue(s[|s| - 1])
  }

  predicate HexPrefixed(body: string) {
    |body| >= 2 && body[0] == '0' && (body[1] == 'x' || body[1] == 'X')
  }

  /** The unsigned number at the start of `body`: hexadecimal after a `0x`
      prefix, decimal otherwise; `None` when no digit follows. */
  function Magnitude(body: string): Option<nat> {
    if HexPrefixed(body) then
      var ds := Run(body[2..], IsHexDigit);
      if ds == [] then None else Some(HexValue(ds))
    else
      var ds := Run(body, IsDigit);
      if ds == [] then None else Some(DigitsValue(ds))
  }

  /** `parseInt(s)` with no radix: leading blanks skipped, an optional sign,
      a `0x` prefix for hexadecimal, then the longest run of digits;
      `None` is `NaN`, which `JSON.stringify` writes as `null`. */
  function ParseInt(s: string): Option<int> {
    var t := TrimStart(s, JavaScript);
    var negative := t != [] && t[0] == '-';
    var body := if t != [] && (t[0] == '-' || t[0] == '+') then t[1..] else t;
    var m := Magnitude(body);
    if m.None? then None
    else var v: int := m.value; Some(if negative then -v else v)
  }

  lemma {:induction false} RunAll(s: string, p: char -> bool)
    requires forall i :: 0 <= i < |s| ==> p(s[i])
    ensures Run(s, p) == s
  {
    if s != [] {
      RunAll(s[1..], p);
    }
  }

  /** A run of decimal digits without a leading zero is read as decimal. */
  lemma DecimalMagnitude(body: string)
    requires body != [] && AllDigits(body) && (body[0] == '0' ==> |body| == 1)
    ensures Magnitude(body) == Some(DigitsValue(body))
  {
    assert !HexPrefixed(body);
    RunAll(body, IsDigit);
  }

  /** Decimal digits without a leading zero read as their value. */
  lemma ParseIntDigits(s: string)
    requires s != [] && AllDigits(s) && (s[0] == '0' ==> |s| == 1)
    ensures ParseInt(s) == Some(DigitsValue(s))
  {
    assert TrimStart(s, JavaScript) == s by {
      assert IsDigit(s[0]);
    }
    DecimalMagnitude(s);
  }

  /** A rendered id reads back as itself, so an assignee chosen from the
      select, whose option values are user ids, is sent as that id. */
  lemma ParseIntRoundTrip(n: nat)
    ensures ParseInt(NatToString(n)) == Some(n)
  {
    var s := NatToString(n);
    assert s[0] == '0' ==> |s| == 1 by {
      if s[0] == '0' {
        assert n == 0;
      }
    }
    ParseIntDigits(s);
    NatToStringRoundTrip(n);
  }

  /** Text that does not start with a digit, a sign or a blank is `NaN`, sent as `null`. */
  lemma ParseIntNaN(s: string)
    requires s != [] && !IsDigit(s[0]) && !IsJsSpace(s[0]) && s[0] != '-' && s[0] != '+'
    ensures ParseInt(s) == None
  {
    assert TrimStart(s, JavaScript) == s;
    assert !HexPrefixed(s);
  }

  /** The submit handler's body: blank description and due date become
      `null`; a blank assignee is `null`, otherwise `parseInt` of it; a new
      task is sent as "todo", an edited one carries no status. */
  function Submit(f: TaskForm, isEditMode: bool): (p: Payload)
    ensures p.title == f.title && p.priority == f.priority
    ensures p.description.None? <==> f.description == ""
    ensures p.description.Some? ==> p.description.value == f.description
    ensures p.dueDate.None? <==> f.dueDate == ""
    ensures p.dueDate.Some? ==> p.dueDate.value == f.dueDate
    ensures f.assignedTo == "" ==> p.assignedTo.None?
    ensures f.assignedTo != "" ==> p.assignedTo == ParseInt(f.assignedTo)
    ensures p.status.Some? <==> !isEditMode
    ensures p.status.Some? ==> ParseStatus(p.status.value) == Some(Todo)
  {
    Payload(
      f.title,
      if f.description != "" then Some(f.description) else None,
      f.priority,
      if f.dueDate != "" then Some(f.dueDate) else None,
      if f.assignedTo != "" then ParseInt(f.assignedTo) else None,
      if !isEditMode then Some("todo") else None)
  }

  datatype Route = Put(id: nat) | Post

  /** A PUT to the task's URL only when editing a task whose id is set
      (a truthy `currentTaskId`); otherwise a POST that creates one. */
  function SubmitRoute(isEditMode: bool, currentTaskId: Option<nat>): (r: Route)
    ensures r.Put? <==> isEditMode && currentTaskId.Some? && currentTaskId.value != 0
    ensures r.Put? ==> r.id == currentTaskId.value
  {
    if isEditMode && currentTaskId.Some? && currentTaskId.value != 0 then Put(currentTaskId.value) else Post
  }

  /** `editTask`: the dialog filled from a card; missing values become "". */
  function EditForm(c: Card): (f: TaskForm)
    ensures f.title == c.title && f.priority == c.priority
    ensures f.assignedTo == "" <==> c.assignedTo.None? || c.assignedTo == Some(0)
  {
    TaskForm(
      c.title,
      if c.description.Some? then c.description.value else "",
      c.priority,
      if c.dueDate.Some? then c.dueDate.value else "",
      if c.assignedTo.Some? && c.assignedTo.value != 0 then NatToString(c.assignedTo.value) else "")
  }

  /** Opening a task for editing and saving it unchanged sends back its own
      values (an empty description or due date goes back as `null`) and no
      status, so the save never moves the task between columns. */
  lemma EditRoundTrip(c: Card)
    ensures var p := Submit(EditForm(c), true);
      p.title == c.title && p.priority == c.priority && p.status.None?
      && p.description == (if c.description == Some("") then None else c.description)
      && p.dueDate == (if c.dueDate == Some("") then None else c.dueDate)
      && p.assignedTo == (if c.assignedTo.Some? && c.assignedTo.value != 0 then Some(c.assignedTo.value as int) else None)
  {
    if c.assignedTo.Some? && c.assignedTo.value != 0 {
      ParseIntRoundTrip(c.assignedTo.value);
    }
  }

  // ----------------------------------------------------------- api errors

  /** The body of a failed response: JSON with an `assigned_to` list and a
      `detail` text, or a body `response.json()` cannot parse. */
  datatype ErrorBody =
    | ErrorJson(assignedTo: Option<seq<string>>, detail: Option<string>)
    | Unparsable(parseError: string)

  const AssignPrefix: string := "Помилка призначення: "
  const RequestFailed: string := "Помилка запиту"

  /** The message `apiCall` throws: the first assignee error, else the
      detail when it is not empty, else a generic text; an unparsable body
      throws the parser's own error. */
  function ApiErrorText(body: ErrorBody): (msg: string)
    ensures body.ErrorJson? && body.assignedTo.Some? && |body.assignedTo.value| > 0 ==>
      msg == AssignPrefix + body.assignedTo.value[0]
    ensures body.ErrorJson? && body.assignedTo.None? && body.detail.Some? && body.detail.value != "" ==>
      msg == body.detail.value
    ensures body.ErrorJson? && body.assignedTo.None? && (body.detail.None? || body.detail == Some("")) ==>
      msg == RequestFailed
    ensures body.Unparsable? ==> msg == body.parseError
  {
    match body
    case Unparsable(e) => e
    case ErrorJson(assignees, detail) =>
      if assignees.Some? then
        AssignPrefix + (if |assignees.value| > 0 then assignees.value[0] else "undefined")
      else if detail.Some? && detail.value != "" then detail.value
      else RequestFailed
  }

  /** `updateTaskStatus` shows the error's message, or a fallback when it is empty. */
  function StatusErrorNotice(msg: string, fallback: string): (shown: string)
    ensures msg != "" ==> shown == msg
    ensures msg == "" ==> shown == fallback
  {
    if msg != "" then msg else fallback
  }

  /** A refusal of a status change reaches the user word for word: the
      server's `{"detail": ...}` becomes the notice, and the fallback text
      is never used for a JSON error body. */
  lemma RefusalShown(detail: string, fallback: string)
    requires detail != ""
    ensures StatusErrorNotice(ApiErrorText(ErrorJson(None, Some(detail))), fallback) == detail
  {
  }

  lemma JsonErrorNeverEmpty(body: ErrorBody, fallback: string)
    requires body.ErrorJson?
    ensures ApiErrorText(body) != ""
    ensures StatusErrorNotice(ApiErrorText(body), fallback) == ApiErrorText(body)
  {
  }

  // --------------------------------------------------------------- initials

  /** A card's avatar input: a name string, or anything else (`null`). */
  datatype NameValue = NameText(text: string) | NotText

  /** `getInitials`: the upper-cased first letters of the first two
      space-separated words of the trimmed name, one letter for a single
      word, "?" when there is none. */
  function Initials(name: NameValue): (r: string)
    ensures |r| == 1 || |r| == 2
    ensures name.NotText? || name.text == "" ==> r == "?"
  {
    if name.NotText? || name.text == "" then "?"
    else
      var parts := NonEmpty(Split(JsTrim(name.text), " "));
      if |parts| >= 2 then Upper([parts[0][0]] + [parts[1][0]])
      else if |parts| == 1 then Upper([parts[0][0]])
      else "?"
  }

  /** `get_created_by_name` and its siblings: first and last name joined by a space. */
  function ServerName(first: string, last: string): (s: string)
    ensures |s| == |first| + |last| + 1 && s[|first|] == ' '
  {
    first + " " + last
  }

  predicate NoJsSpace(w: string) { forall i :: 0 <= i < |w| ==> !IsJsSpace(w[i]) }

  lemma NoJsSpaceHasNoBlank(w: string)
    requires NoJsSpace(w)
    ensures ' ' !in w
  {
    forall i | 0 <= i < |w|
      ensures w[i] != ' '
    {
      assert !IsJsSpace(w[i]);
    }
  }

  /** The words of a two-word server name are its first and last name. */
  lemma ServerNameWords(first: string, last: string)
    requires first != "" && last != "" && ' ' !in first && ' ' !in last
    requires !IsJsSpace(first[0]) && !IsJsSpace(last[|last| - 1])
    ensures NonEmpty(Split(JsTrim(ServerName(first, last)), " ")) == [first, last]
  {
    ServerNameTrimmed(first, last);
    SplitServerName(first, last);
    NonEmptyPair(first, last);
  }

  lemma ServerNameTrimmed(first: string, last: string)
    requires first != "" && last != ""
    requires !IsJsSpace(first[0]) && !IsJsSpace(last[|last| - 1])
    ensures JsTrim(ServerName(first, last)) == ServerName(first, last)
  {
    var s := ServerName(first, last);
    assert s[0] == first[0] && s[|s| - 1] == last[|last| - 1];
    TrimUnpadded(s, JavaScript);
  }

  lemma NonEmptyPair(first: string, last: string)
    requires first != "" && last != ""
    ensures NonEmpty([first, last]) == [first, last]
  {
    var parts := [first, last];
    assert parts[1..] == [last];
    assert [last][1..] == [];
  }

  lemma SplitServerName(first: string, last: string)
    requires ' ' !in first && ' ' !in last
    ensures Split(ServerName(first, last), " ") == [first, last]
  {
    var s := ServerName(first, last);
    assert s[..|first|] == first && s[|first| + 1..] == last;
    SplitTwo(s, ' ', |first|);
  }

  lemma InitialsOfTwoWords(first: string, last: string)
    requires first != "" && last != "" && ' ' !in first && ' ' !in last
    requires !IsJsSpace(first[0]) && !IsJsSpace(last[|last| - 1])
    ensures Initials(NameText(ServerName(first, last))) == Upper([first[0]] + [last[0]])
  {
    ServerNameWords(first, last);
  }

  lemma InitialsOfOneWord(w: string)
    requires w != "" && NoJsSpace(w)
    ensures Initials(NameText(w)) == Upper([w[0]])
  {
    NoJsSpaceHasNoBlank(w);
    assert JsTrim(w) == w by {
      TrimUnpadded(w, JavaScript);
    }
    SplitNone(w, ' ');
    NonEmptyKeeps([w]);
  }

  lemma TrimTrailingBlank(w: string)
    requires w != "" && !IsJsSpace(w[0]) && !IsJsSpace(w[|w| - 1])
    ensures JsTrim(w + " ") == w
  {
    var s := w + " ";
    assert TrimStart(s, JavaScript) == s by {
      assert s[0] == w[0] && !IsJsSpace(w[0]);
    }
    assert TrimEnd(w, JavaScript) == w by {
      assert !IsJsSpace(w[|w| - 1]);
    }
    assert TrimEnd(s, JavaScript) == w by {
      assert s[..|s| - 1] == w;
      assert IsSpace(s[|s| - 1], JavaScript);
    }
  }

  lemma TrimLeadingBlank(w: string)
    requires w != "" && !IsJsSpace(w[0]) && !IsJsSpace(w[|w| - 1])
    ensures JsTrim(" " + w) == w
  {
    var s := " " + w;
    assert TrimStart(s, JavaScript) == w by {
      assert s[1..] == w;
      assert TrimStart(w, JavaScript) == w by {
        assert !IsJsSpace(w[0]);
      }
    }
    assert TrimEnd(w, JavaScript) == w by {
      assert !IsJsSpace(w[|w| - 1]);
    }
  }

  lemma InitialsOfBlank()
    ensures Initials(NameText(" ")) == "?"
  {
    assert TrimStart(" ", JavaScript) == [] by {
      assert " "[1..] == [];
    }
    assert JsTrim(" ") == [];
    SplitNone([], ' ');
  }

  /** The initials of a name the server renders are the first letters of
      the first and the last name, whichever of the two are not empty. */
  lemma InitialsOfServerName(first: string, last: string)
    requires NoJsSpace(first) && NoJsSpace(last)
    ensures Initials(NameText(ServerName(first, last))) ==
      (if first != "" && last != "" then Upper([first[0]] + [last[0]])
       else if first != "" then Upper([first[0]])
       else if last != "" then Upper([last[0]])
       else "?")
  {
    var s := ServerName(first, last);
    if first != "" && last != "" {
      NoJsSpaceHasNoBlank(first);
      NoJsSpaceHasNoBlank(last);
      InitialsOfTwoWords(first, last);
    } else if first != "" {
      assert s == first + " ";
      TrimTrailingBlank(first);
      NoJsSpaceHasNoBlank(first);
      SplitNone(first, ' ');
      NonEmptyKeeps([first]);
    } else if last != "" {
      assert s == " " + last;
      TrimLeadingBlank(last);
      NoJsSpaceHasNoBlank(last);
      SplitNone(last, ' ');
      NonEmptyKeeps([last]);
    } else {
      assert s == " ";
      InitialsOfBlank();
    }
  }
}
