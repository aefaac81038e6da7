/** The employee page script (static/js/app.js): the yes/no values it puts
    into the edit form, the contact formset whose rows it numbers, and the
    edit modal that takes the server's edit lock before it opens and gives
    it back when it closes. The DOM is held as plain values; the replies of
    the lock endpoint are parameters. */
module EmployeePage {

  import opened Outcomes
  import opened Text
  import Forms
  import opened EditLock
  import opened Entities
  import opened Cache

  // --------------------------------------------------------- boolToString

  /** A JSON value of the profile payload. */
  datatype Json = JBool(b: bool) | JNull | JNumber(n: int) | JText(s: string)

  /** `boolToString`: `true` and `false` become their names, anything else
      the blank choice. */
  function BoolToString(v: Json): (s: string)
    ensures v.JBool? ==> s == (if v.b then "true" else "false")
    ensures !v.JBool? ==> s == ""
  {
    if v == JBool(true) then "true"
    else if v == JBool(false) then "false"
    else ""
  }

  /** The choice the page shows for a yes/no field is read back by the
      employee form as the same answer, and a missing one as no answer. */
  lemma YesNoRoundTrip(v: Json)
    ensures Forms.StringToBool(BoolToString(v)) == if v.JBool? then Some(v.b) else None
  {
  }

  // ------------------------------------------------------ contact formset

  /** The placeholder Django's empty form carries in its field names. */
  const Placeholder: string := "__prefix__"

  /** One `input` or `select` of a contact row. */
  datatype Field = Field(name: string, id: string, hidden: bool, value: string)

  /** One contact of the profile payload. */
  datatype ContactItem = ContactItem(contactType: string, value: string, id: string, employee: string)

  predicate EndsWith(s: string, suffix: string) {
    |suffix| <= |s| && s[|s| - |suffix|..] == suffix
  }

  /** The value `fillContacts` gives a field, chosen by the end of its name. */
  function FilledValue(name: string, item: ContactItem, current: string): (v: string)
    ensures EndsWith(name, "-contact_type") ==> v == item.contactType
    ensures (!EndsWith(name, "-contact_type") && !EndsWith(name, "-value") && !EndsWith(name, "-id")
             && !EndsWith(name, "-employee")) ==> v == current
  {
    if EndsWith(name, "-contact_type") then item.contactType
    else if EndsWith(name, "-value") then item.value
    else if EndsWith(name, "-id") then item.id
    else if EndsWith(name, "-employee") then item.employee
    else current
  }

  /** A template field filled for contact `index`: the first placeholder
      of its name and of its id (when it has one) becomes the index. */
  function FillField(f: Field, item: ContactItem, index: nat): Field {
    var name := ReplaceFirst(f.name, Placeholder, NatToString(index));
    Field(name, if f.id != "" then ReplaceFirst(f.id, Placeholder, NatToString(index)) else f.id,
      f.hidden, FilledValue(name, item, f.value))
  }

  function FillForm(template: seq<Field>, item: ContactItem, index: nat): (form: seq<Field>)
    ensures |form| == |template|
    ensures forall j :: 0 <= j < |template| ==> form[j] == FillField(template[j], item, index)
  {
    seq(|template|, j requires 0 <= j < |template| => FillField(template[j], item, index))
  }

  /** A template field of a row added with the "add" button: every
      placeholder of its name and id becomes the index, and its value is
      cleared unless the input is hidden. */
  function BlankField(f: Field, index: nat): Field {
    Field(ReplaceAll(f.name, Placeholder, NatToString(index)),
      if f.id != "" then ReplaceAll(f.id, Placeholder, NatToString(index)) else f.id,
      f.hidden, if f.hidden then f.value else "")
  }

  function BlankForm(template: seq<Field>, index: nat): (form: seq<Field>)
    ensures |form| == |template|
    ensures forall j :: 0 <= j < |template| ==> form[j] == BlankField(template[j], index)
  {
    seq(|template|, j requires 0 <= j < |template| => BlankField(template[j], index))
  }

  /** The name of field `j` of the row numbered `index`. */
  function RowName(template: seq<Field>, j: nat, index: nat): string
    requires j < |template|
  {
    ReplaceAll(template[j].name, Placeholder, NatToString(index))
  }

  /** Every field of `form` carries the number `index` in its name. */
  predicate NumberedAs(form: seq<Field>, template: seq<Field>, index: nat) {
    |form| == |template| && forall j :: 0 <= j < |form| ==> form[j].name == RowName(template, j, index)
  }

  /** A name with the placeholder at most once, as Django renders it. */
  predicate AtMostOnePlaceholder(name: string) {
    match Find(name, Placeholder)
    case None => true
    case Some(i) => !Contains(name[i + |Placeholder|..], Placeholder)
  }

  predicate SinglePlaceholders(template: seq<Field>) {
    forall j :: 0 <= j < |template| ==> AtMostOnePlaceholder(template[j].name)
  }

  /** Where the placeholder occurs at most once, replacing its first
      occurrence and replacing all of them agree. */
  lemma ReplaceFirstIsAll(s: string, rep: string)
    requires AtMostOnePlaceholder(s)
    ensures ReplaceFirst(s, Placeholder, rep) == ReplaceAll(s, Placeholder, rep)
  {
    match Find(s, Placeholder)
    case None =>
    case Some(i) =>
      SplitOnce(s, Placeholder, i);
      var parts := [s[..i], s[i + |Placeholder|..]];
      assert parts[1..] == [s[i + |Placeholder|..]];
      JoinCons(s[..i], parts[1..], rep);
  }

  /** A filled row carries its index in every name when the template has
      the placeholder at most once per name. */
  lemma FilledRowNumbered(template: seq<Field>, item: ContactItem, index: nat)
    requires SinglePlaceholders(template)
    ensures NumberedAs(FillForm(template, item, index), template, index)
  {
    forall j | 0 <= j < |template|
      ensures FillForm(template, item, index)[j].name == RowName(template, j, index)
    {
      ReplaceFirstIsAll(template[j].name, NatToString(index));
    }
  }

  /** The contact rows on the page and the management form's counters. */
  class ContactFormset {
    const template: seq<Field>
    var forms: seq<seq<Field>>
    var totalForms: nat
    var initialForms: nat

    /** The management form counts the rows on the page, and row `k`
        submits its fields under number `k`. */
    ghost predicate Valid()
      reads this
    {
      totalForms == |forms| && initialForms <= totalForms
      && forall k :: 0 <= k < |forms| ==> NumberedAs(forms[k], template, k)
    }

    constructor(template: seq<Field>)
      ensures this.template == template && forms == [] && totalForms == 0 && initialForms == 0
      ensures Valid()
    {
      this.template := template;
      forms := [];
      totalForms := 0;
      initialForms := 0;
    }

    /** `fillContacts`: one row per contact, numbered from 0, and both
        counters set to the number of contacts. */
    method FillContacts(items: seq<ContactItem>)
      modifies this
      ensures |forms| == |items|
      ensures forall k :: 0 <= k < |items| ==> forms[k] == FillForm(template, items[k], k)
      ensures totalForms == |items| && initialForms == |items|
      ensures SinglePlaceholders(template) ==> Valid()
    {
      forms := [];
      var index := 0;
      while index < |items|
        invariant 0 <= index <= |items| && |forms| == index
        invariant forall k :: 0 <= k < index ==> forms[k] == FillForm(template, items[k], k)
      {
        forms := forms + [FillForm(template, items[index], index)];
        index := index + 1;
      }
      totalForms := |items|;
      initialForms := |items|;
      if SinglePlaceholders(template) {
        forall k | 0 <= k < |forms|
          ensures NumberedAs(forms[k], template, k)
        {
          FilledRowNumbered(template, items[k], k);
        }
      }
    }

    /** The "add contact" button: a blank row numbered with the current
        total, and the total raised by exactly one. */
    method AddContact()
      modifies this
      ensures forms == old(forms) + [BlankForm(template, old(totalForms))]
      ensures totalForms == old(totalForms) + 1 && initialForms == old(initialForms)
      ensures old(Valid()) ==> Valid()
    {
      var current := totalForms;
      forms := forms + [BlankForm(template, current)];
      totalForms := current + 1;
    }
  }

  // -------------------------------------------------- lock-before-edit

  /** How the lock request ended: the reply's status, or a network error. */
  datatype LockAttempt = Answered(status: nat) | NetworkError

  /** `lockEmployee`: a 423 or a network error is a refusal; otherwise the
      reply must be `ok` (a 2xx status). */
  predicate LockGranted(a: LockAttempt) {
    a.Answered? && a.status != 423 && 200 <= a.status <= 299
  }

  /** A JavaScript employee id that is present and not 0. */
  predicate IdTruthy(id: Option<int>) {
    id.Some? && id.value != 0
  }

  /** Whether `openModal` gets as far as showing the modal: always, except
      in edit mode for an employee whose lock was not granted. */
  predicate ModalOpens(edit: bool, id: Option<int>, a: LockAttempt) {
    !(edit && IdTruthy(id)) || LockGranted(a)
  }

  /** The unlock request `closeModal` sends for the current employee, if any. */
  function UnlockTarget(current: Option<int>): (t: Option<int>)
    ensures t.Some? <==> IdTruthy(current)
    ensures t.Some? ==> t == current
  {
    if IdTruthy(current) then current else None
  }

  /** The edit modal's state. */
  class EmployeeModal {
    var isEditMode: bool
    var currentEmployeeId: Option<int>
    var active: bool

    constructor()
      ensures !isEditMode && currentEmployeeId == None && !active
    {
      isEditMode := false;
      currentEmployeeId := None;
      active := false;
    }

    /** `openModal(mode, employeeId)`: record the mode and employee, ask for
        the lock when editing an existing employee, and show the modal
        unless that lock was refused. Returns the employee whose lock was
        requested. */
    method OpenModal(edit: bool, employeeId: Option<int>, attempt: LockAttempt) returns (lockRequest: Option<int>)
      modifies this
      ensures isEditMode == edit && currentEmployeeId == employeeId
      ensures lockRequest == if edit && IdTruthy(employeeId) then employeeId else None
      ensures active == (ModalOpens(edit, employeeId, attempt) || old(active))
    {
      isEditMode := edit;
      currentEmployeeId := employeeId;
      lockRequest := None;
      if isEditMode && IdTruthy(employeeId) {
        lockRequest := employeeId;
        var granted := LockGranted(attempt);
        if !granted {
          return;
        }
      }
      active := true;
    }

    /** `closeModal`: send the unlock for the current employee, if any,
        then hide the modal and leave edit mode. */
    method CloseModal() returns (unlockRequest: Option<int>)
      modifies this
      ensures unlockRequest == UnlockTarget(old(currentEmployeeId))
      ensures !active && !isEditMode && currentEmployeeId == None
    {
      unlockRequest := UnlockTarget(currentEmployeeId);
      active := false;
      isEditMode := false;
      currentEmployeeId := None;
    }
  }

  /** The lock request of the page for employee `id`. */
  function LockRequest(id: int): Body {
    Fields(Some(Number(id)))
  }

  /** Editing an existing employee opens the modal exactly when the server
      granted the lock; a refusal keeps it closed. */
  lemma EditOpensOnlyWithLock(entries: map<string, Entry>, id: int, user: UserId, now: Timestamp)
    requires id != 0
    ensures var step := Lock(entries, true, LockRequest(id), user, now);
      ModalOpens(true, Some(id), Answered(step.reply.status)) <==> step.reply == Granted
  {
  }

  /** A page that opened the editor for `id` and then closed it within the
      lock's lifetime has released the lock: another user's lock request is
      then granted. */
  lemma OpenThenCloseReleases(entries: map<string, Entry>, id: int, u1: UserId, u2: UserId,
      t1: Timestamp, t2: Timestamp, t3: Timestamp)
    requires id != 0 && u1 != 0
    requires t1 <= t2 < t1 + LockTimeout
    requires var step := Lock(entries, true, LockRequest(id), u1, t1);
      ModalOpens(true, Some(id), Answered(step.reply.status))
    ensures var step := Lock(entries, true, LockRequest(id), u1, t1);
      var target := UnlockTarget(Some(id));
      target == Some(id)
      && var released := Unlock(step.entries, true, LockRequest(target.value), u1, t2);
      released.reply == Granted && Lock(released.entries, true, LockRequest(id), u2, t3).reply == Granted
  {
    var key := LockKey(IdText(Number(id)));
    EditOpensOnlyWithLock(entries, id, u1, t1);
    UnlockReleases(entries, key, u1, u2, t1, t2, t3);
  }
}
