/** The advisory edit lock on an employee (apps/main/views.py): a cache
    entry `employee_edit_lock:{id}` holding the editing user's id for 300
    seconds. `lock_employee` refreshes the caller's own lock, refuses with
    423 while another user holds it, and otherwise claims it with the
    cache's atomic `add`; `unlock_employee` removes only the caller's own
    lock; opening the edit form overwrites the lock with a plain `set`; and
    a successful update deletes it. The clock is a parameter. */
module EditLock {

  import opened Outcomes
  import opened Entities
  import opened Text
  import opened Cache

  const LockPrefix: string := "employee_edit_lock:"

  /** Seconds a lock lives after it is set or refreshed. */
  const LockTimeout: nat := 300

  /** The text of the 423 refusal. */
  const LockedMessage: string := "Цей співробітник зараз редагується іншим користувачем"

  /** The text of the reply to an unlock of another user's lock. */
  const NotOwnerMessage: string := "Lock owned by another user"

  // ----------------------------------------------------------------- keys

  /** The `employee_id` of a JSON request body: a number or a string. */
  datatype IdValue = Number(n: int) | Chars(s: string)

  /** `if employee_id:` — present and truthy (not 0, not ""). */
  predicate IdGiven(v: Option<IdValue>) {
    v.Some? && match v.value
      case Number(n) => n != 0
      case Chars(s) => s != ""
  }

  /** `f"{employee_id}"`. */
  function IdText(v: IdValue): string {
    match v
    case Number(n) => IntToString(n)
    case Chars(s) => s
  }

  /** The cache key of the lock on the employee whose id reads `id`. */
  function LockKey(id: string): (k: string)
    ensures |k| == |LockPrefix| + |id|
    ensures k[..|LockPrefix|] == LockPrefix && k[|LockPrefix|..] == id
  {
    LockPrefix + id
  }

  /** Different employees have different locks. */
  lemma LockKeyInjective(a: Id, b: Id)
    ensures LockKey(NatToString(a)) == LockKey(NatToString(b)) <==> a == b
  {
    if LockKey(NatToString(a)) == LockKey(NatToString(b)) {
      assert NatToString(a) == LockKey(NatToString(a))[|LockPrefix|..];
      NatToStringInjective(a, b);
    }
  }

  /** A body naming the employee by number and one naming it by the same
      digits as a string address the same lock as the view's URL id. */
  lemma LockKeySpellings(id: Id)
    ensures LockKey(IdText(Number(id))) == LockKey(IdText(Chars(NatToString(id)))) == LockKey(NatToString(id))
  {
  }

  // -------------------------------------------------------------- holders

  /** Python truthiness of a cached value. */
  predicate Truthy(v: CacheValue) {
    match v
    case Holder(u) => u != 0
    case Opaque(t) => t != ""
  }

  /** `locked_by and locked_by != request.user.id`. */
  predicate HeldByOther(lockedBy: Option<CacheValue>, user: UserId) {
    lockedBy.Some? && Truthy(lockedBy.value) && lockedBy.value != Holder(user)
  }

  /** The entry a `set` or `add` of the caller's lock writes at `now`. */
  function Claimed(user: UserId, now: Timestamp): (e: Entry)
    ensures e.value == Holder(user) && e.expiresAt == Some(now + LockTimeout)
  {
    Entry(Holder(user), ExpiryFor(now, Some(LockTimeout)))
  }

  // -------------------------------------------------------------- replies

  datatype ReplyBody =
    | NoContent
    | Success(ok: bool, message: Option<string>)
    | ErrorMessage(error: string)

  /** An HTTP reply: status code and JSON body. */
  datatype Reply = Reply(status: nat, body: ReplyBody)

  /** The request body: JSON that could not be read (any exception in the
      `try`, with its text), or the value of its `employee_id` key. */
  datatype Body = Unreadable(error: string) | Fields(employeeId: Option<IdValue>)

  /** A reply together with the cache it leaves. */
  datatype Step = Step(reply: Reply, entries: map<string, Entry>)

  const Granted: Reply := Reply(200, Success(true, None))
  const Refused: Reply := Reply(423, ErrorMessage(LockedMessage))

  // ----------------------------------------------------------------- lock

  /** The lock decision for one key: refresh the caller's lock, refuse while
      another user holds it, else claim it if no live entry exists. */
  function LockKeyStep(entries: map<string, Entry>, key: string, user: UserId, now: Timestamp): (s: Step)
    ensures s.reply == Granted || s.reply == Refused
    ensures s.reply == Granted ==> s.entries == entries[key := Claimed(user, now)]
    ensures s.reply == Refused ==> s.entries == entries
  {
    var lockedBy := Read(entries, key, now);
    if lockedBy == Some(Holder(user)) then Step(Granted, entries[key := Claimed(user, now)])
    else if HeldByOther(lockedBy, user) then Step(Refused, entries)
    else if lockedBy.None? then Step(Granted, entries[key := Claimed(user, now)])
    else Step(Refused, entries)
  }

  /** `lock_employee`, including its 400 and 500 replies. */
  function Lock(entries: map<string, Entry>, isPost: bool, body: Body, user: UserId, now: Timestamp): Step {
    if !isPost then Step(Reply(400, NoContent), entries)
    else match body
      case Unreadable(error) => Step(Reply(500, ErrorMessage(error)), entries)
      case Fields(id) =>
        if IdGiven(id) then LockKeyStep(entries, LockKey(IdText(id.value)), user, now)
        else Step(Reply(400, NoContent), entries)
  }

  /** `lock_employee` on the process cache. */
  method LockEmployee(cache: Store, isPost: bool, body: Body, user: UserId, now: Timestamp) returns (r: Reply)
    modifies cache
    ensures Step(r, cache.entries) == Lock(old(cache.entries), isPost, body, user, now)
  {
    if !isPost {
      return Reply(400, NoContent);
    }
    match body {
      case Unreadable(error) =>
        return Reply(500, ErrorMessage(error));
      case Fields(id) =>
        if !IdGiven(id) {
          return Reply(400, NoContent);
        }
        var key := LockKey(IdText(id.value));
        var lockedBy := cache.Get(key, now);
        if lockedBy == Some(Holder(user)) {
          cache.Set(key, Holder(user), Some(LockTimeout), now);
          return Granted;
        }
        if HeldByOther(lockedBy, user) {
          return Refused;
        }
        var added := cache.Add(key, Holder(user), Some(LockTimeout), now);
        r := if added then Granted else Refused;
    }
  }

  /** A granted lock is the caller's for the next 300 seconds and no longer. */
  lemma LockHeldForTimeout(entries: map<string, Entry>, key: string, user: UserId, now: Timestamp, later: Timestamp)
    requires LockKeyStep(entries, key, user, now).reply == Granted
    requires now <= later
    ensures var after := LockKeyStep(entries, key, user, now).entries;
      Read(after, key, later) == (if later < now + LockTimeout then Some(Holder(user)) else None)
  {
    ReadBackWithinTimeout(Claimed(user, now), now, LockTimeout, later);
  }

  /** Two users never hold the same lock: while one user's lock lives,
      another user is refused and the cache stays as it was. */
  lemma LockExclusive(entries: map<string, Entry>, key: string, u1: UserId, u2: UserId, t1: Timestamp, t2: Timestamp)
    requires u1 != 0 && u1 != u2
    requires LockKeyStep(entries, key, u1, t1).reply == Granted
    requires t1 <= t2 < t1 + LockTimeout
    ensures var held := LockKeyStep(entries, key, u1, t1).entries;
      LockKeyStep(held, key, u2, t2) == Step(Refused, held)
  {
    var held := LockKeyStep(entries, key, u1, t1).entries;
    LockHeldForTimeout(entries, key, u1, t1, t2);
    assert Read(held, key, t2) == Some(Holder(u1));
  }

  /** Once the timeout has passed without a refresh, another user can claim
      the lock. */
  lemma LockLapses(entries: map<string, Entry>, key: string, u1: UserId, u2: UserId, t1: Timestamp, t2: Timestamp)
    requires LockKeyStep(entries, key, u1, t1).reply == Granted
    requires t1 + LockTimeout <= t2
    ensures var held := LockKeyStep(entries, key, u1, t1).entries;
      LockKeyStep(held, key, u2, t2).reply == Granted
  {
    LockHeldForTimeout(entries, key, u1, t1, t2);
  }

  /** A user who holds the lock can always refresh it, which restarts the
      300 seconds. */
  lemma LockRefresh(entries: map<string, Entry>, key: string, user: UserId, t1: Timestamp, t2: Timestamp)
    requires LockKeyStep(entries, key, user, t1).reply == Granted
    requires t1 <= t2 < t1 + LockTimeout
    ensures var held := LockKeyStep(entries, key, user, t1).entries;
      LockKeyStep(held, key, user, t2) == Step(Granted, held[key := Claimed(user, t2)])
  {
    LockHeldForTimeout(entries, key, user, t1, t2);
  }

  /** The lock on one employee never touches another employee's entry. */
  lemma LockKeyStepLocal(entries: map<string, Entry>, key: string, other: string, user: UserId, now: Timestamp)
    requires other != key
    ensures var after := LockKeyStep(entries, key, user, now).entries;
      (other in after <==> other in entries) && (other in entries ==> after[other] == entries[other])
  {
  }

  // --------------------------------------------------------------- unlock

  /** The unlock decision for one key: remove the caller's own lock, succeed
      when there is none, and otherwise leave it with `success: false`. */
  function UnlockKeyStep(entries: map<string, Entry>, key: string, user: UserId, now: Timestamp): (s: Step)
    ensures s.reply.status == 200
    ensures s.entries == entries - {key} || s.entries == entries
  {
    var lockedBy := Read(entries, key, now);
    if lockedBy.Some? && Truthy(lockedBy.value) && lockedBy.value == Holder(user) then Step(Granted, entries - {key})
    else if lockedBy.None? || !Truthy(lockedBy.value) then Step(Granted, entries)
    else Step(Reply(200, Success(false, Some(NotOwnerMessage))), entries)
  }

  /** `unlock_employee`, including its 400 and 500 replies. */
  function Unlock(entries: map<string, Entry>, isPost: bool, body: Body, user: UserId, now: Timestamp): Step {
    if !isPost then Step(Reply(400, NoContent), entries)
    else match body
      case Unreadable(error) => Step(Reply(500, ErrorMessage(error)), entries)
      case Fields(id) =>
        if IdGiven(id) then UnlockKeyStep(entries, LockKey(IdText(id.value)), user, now)
        else Step(Reply(400, NoContent), entries)
  }

  /** `unlock_employee` on the process cache. */
  method UnlockEmployee(cache: Store, isPost: bool, body: Body, user: UserId, now: Timestamp) returns (r: Reply)
    modifies cache
    ensures Step(r, cache.entries) == Unlock(old(cache.entries), isPost, body, user, now)
  {
    if !isPost {
      return Reply(400, NoContent);
    }
    match body {
      case Unreadable(error) =>
        return Reply(500, ErrorMessage(error));
      case Fields(id) =>
        if !IdGiven(id) {
          return Reply(400, NoContent);
        }
        var key := LockKey(IdText(id.value));
        var lockedBy := cache.Get(key, now);
        if lockedBy.Some? && Truthy(lockedBy.value) && lockedBy.value == Holder(user) {
          cache.Delete(key);
          return Granted;
        } else if lockedBy.None? || !Truthy(lockedBy.value) {
          return Granted;
        }
        r := Reply(200, Success(false, Some(NotOwnerMessage)));
    }
  }

  /** Unlock undoes lock: after the holder unlocks, anyone can lock again. */
  lemma UnlockReleases(entries: map<string, Entry>, key: string, u1: UserId, u2: UserId, t1: Timestamp, t2: Timestamp, t3: Timestamp)
    requires u1 != 0
    requires LockKeyStep(entries, key, u1, t1).reply == Granted
    requires t1 <= t2 < t1 + LockTimeout
    ensures var held := LockKeyStep(entries, key, u1, t1).entries;
      var released := UnlockKeyStep(held, key, u1, t2);
      released == Step(Granted, held - {key}) && LockKeyStep(released.entries, key, u2, t3).reply == Granted
  {
    LockHeldForTimeout(entries, key, u1, t1, t2);
  }

  /** Another user's unlock neither removes nor changes a live lock. */
  lemma UnlockByOtherKeeps(entries: map<string, Entry>, key: string, u1: UserId, u2: UserId, t1: Timestamp, t2: Timestamp)
    requires u1 != 0 && u1 != u2
    requires LockKeyStep(entries, key, u1, t1).reply == Granted
    requires t1 <= t2 < t1 + LockTimeout
    ensures var held := LockKeyStep(entries, key, u1, t1).entries;
      UnlockKeyStep(held, key, u2, t2) == Step(Reply(200, Success(false, Some(NotOwnerMessage))), held)
  {
    LockHeldForTimeout(entries, key, u1, t1, t2);
  }

  // ------------------------------------------------- edit form and update

  /** What opening the edit form shows. */
  datatype ModalReply = LockedModal | MissingEmployee | EditForm

  /** `render_employee_modal` in edit mode for employee `id`: refuse while
      another user holds the lock; otherwise overwrite the lock with a plain
      `set` (not the atomic `add`), before looking the employee up. */
  method OpenEditForm(cache: Store, id: Id, user: UserId, employeeExists: bool, now: Timestamp) returns (r: ModalReply)
    requires id != 0
    modifies cache
    ensures var key := LockKey(NatToString(id));
      HeldByOther(old(Read(cache.entries, key, now)), user) ==> r == LockedModal && cache.entries == old(cache.entries)
    ensures var key := LockKey(NatToString(id));
      !HeldByOther(old(Read(cache.entries, key, now)), user) ==>
        r == (if employeeExists then EditForm else MissingEmployee) && cache.entries == old(cache.entries)[key := Claimed(user, now)]
  {
    var key := LockKey(NatToString(id));
    var lockedBy := cache.Get(key, now);
    if HeldByOther(lockedBy, user) {
      return LockedModal;
    }
    cache.Set(key, Holder(user), Some(LockTimeout), now);
    r := if employeeExists then EditForm else MissingEmployee;
  }

  /** What `update_employee` answers. */
  datatype UpdateReply = UpdateNotFound | UpdateLocked | UpdateInvalid | UpdateFailed | UpdateDone

  /** The lock protocol of `update_employee`: a missing employee is a 404
      before the lock is read; another user's lock refuses the update; a
      valid form saves the employee row first, and that save's hook clears
      the whole cache at once, before the period and document rows and the
      contact formset are saved. When any of those later saves fails, the
      error form is answered with the cache already cleared and the lock
      entry gone with it; only when everything saved is the lock key deleted
      explicitly and the employee shown. The saves themselves are the
      `Forms` and `Saves` model's; here they are the flags `rowSaved` (the
      employee row) and `restSaved` (everything after it). */
  method UpdateEmployee(cache: Store, id: Id, user: UserId, employeeExists: bool, formValid: bool,
                        rowSaved: bool, restSaved: bool, now: Timestamp)
    returns (r: UpdateReply)
    modifies cache
    ensures var held := HeldByOther(old(Read(cache.entries, LockKey(NatToString(id)), now)), user);
      r == (if !employeeExists then UpdateNotFound else if held then UpdateLocked
            else if !formValid then UpdateInvalid else if !rowSaved || !restSaved then UpdateFailed
            else UpdateDone)
    ensures var reached := r == UpdateFailed || r == UpdateDone;
      if reached && rowSaved then cache.entries == map[] else cache.entries == old(cache.entries)
  {
    if !employeeExists {
      return UpdateNotFound;
    }
    var key := LockKey(NatToString(id));
    var lockedBy := cache.Get(key, now);
    if HeldByOther(lockedBy, user) {
      return UpdateLocked;
    }
    if !formValid {
      return UpdateInvalid;
    }
    if rowSaved {
      cache.Clear();
    }
    if !rowSaved || !restSaved {
      return UpdateFailed;
    }
    cache.Delete(key);
    r := UpdateDone;
  }

  /** Opening the form takes the lock even from a claim made by `add`
      between the read and the `set`, because `set` does not check: the
      form's lock is the opener's whatever was stored, unless another user's
      lock was live when read. */
  lemma OpenEditFormOverwrites(entries: map<string, Entry>, id: Id, user: UserId, now: Timestamp, later: Timestamp)
    requires now <= later < now + LockTimeout
    ensures var after := entries[LockKey(NatToString(id)) := Claimed(user, now)];
      Read(after, LockKey(NatToString(id)), later) == Some(Holder(user))
  {
    ReadBackWithinTimeout(Claimed(user, now), now, LockTimeout, later);
  }

  // ------------------------------------------------------------ ordering

  datatype Direction = Asc | Desc

  /** One entry of `ordering_info`. */
  datatype SortState = SortState(active: bool, direction: Option<Direction>)

  /** The sortable columns of the employee table. */
  const SortKeys: seq<string> := ["last_name", "start_date", "end_date"]

  const Inactive: SortState := SortState(false, None)

  /** `_parse_ordering`: every column inactive, except the one the
      ordering names once its leading `-` are stripped; its direction is
      "desc" exactly when the ordering starts with `-`. */
  function ParseOrdering(ordering: Option<string>): (info: map<string, SortState>)
    ensures info.Keys == {"last_name", "start_date", "end_date"}
  {
    var none := map["last_name" := Inactive, "start_date" := Inactive, "end_date" := Inactive];
    if ordering.None? || ordering.value == "" then none
    else
      var field := LStripChar(ordering.value, '-');
      if field in none then none[field := SortState(true, Some(if ordering.value[0] == '-' then Desc else Asc))]
      else none
  }

  /** At most one column is active; it is the named one, with the
      direction the leading `-` gives; an unknown or empty ordering leaves
      every column inactive. */
  lemma ParseOrderingActive(ordering: Option<string>, key: string)
    requires key in SortKeys
    ensures var info := ParseOrdering(ordering);
      info[key].active <==> (ordering.Some? && ordering.value != "" && LStripChar(ordering.value, '-') == key)
    ensures var info := ParseOrdering(ordering);
      info[key].active ==> info[key].direction == Some(if StartsWith(ordering.value, "-") then Desc else Asc)
    ensures var info := ParseOrdering(ordering);
      !info[key].active ==> info[key] == Inactive
  {
    if ordering.Some? && ordering.value != "" {
      assert StartsWith(ordering.value, "-") <==> ordering.value[0] == '-';
    }
  }

  /** No two columns are active together. */
  lemma ParseOrderingSingle(ordering: Option<string>, a: string, b: string)
    requires a in SortKeys && b in SortKeys && a != b
    ensures !(ParseOrdering(ordering)[a].active && ParseOrdering(ordering)[b].active)
  {
    ParseOrderingActive(ordering, a);
    ParseOrderingActive(ordering, b);
  }
}
