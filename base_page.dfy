// The script every page loads: the sidebar's collapsed state kept in
// `localStorage`, and the profile dialog's password change.

module BasePage {

  import opened Outcomes
  import opened Registration
  import opened Text

  // ---------------------------------------------------------------- sidebar

  const SidebarStateKey: string := "sidebarCollapsed"

  /** `Boolean.prototype.toString`. */
  function BoolText(b: bool): (s: string)
    ensures s == "true" || s == "false"
    ensures b <==> s == "true"
  {
    if b then "true" else "false"
  }

  /** `getSidebarState` on what `localStorage.getItem` returned: collapsed
      when nothing is stored, otherwise exactly when "true" is stored. */
  function SidebarState(saved: Option<string>): (collapsed: bool)
    ensures saved.None? ==> collapsed
    ensures saved.Some? ==> (collapsed <==> saved.value == "true")
  {
    if saved.None? then true else saved.value == "true"
  }

  /** Saving a state and reading it back gives the state. */
  lemma SaveThenRead(b: bool)
    ensures SidebarState(Some(BoolText(b))) == b
  {
  }

  /** The page: the sidebar's collapsed class and the browser's storage. */
  class Page {
    var collapsed: bool
    var storage: map<string, string>

    constructor (stored: map<string, string>)
      ensures storage == stored && collapsed == false
    {
      storage := stored;
      collapsed := false;
    }

    function Saved(): (saved: Option<string>)
      reads this
      ensures saved.Some? <==> SidebarStateKey in storage
      ensures saved.Some? ==> saved.value == storage[SidebarStateKey]
    {
      if SidebarStateKey in storage then Some(storage[SidebarStateKey]) else None
    }

    /** The sidebar shows what storage holds. */
    predicate Consistent()
      reads this
    {
      collapsed == SidebarState(Saved())
    }

    method GetSidebarState() returns (isCollapsed: bool)
      ensures isCollapsed == SidebarState(Saved())
    {
      if SidebarStateKey in storage {
        isCollapsed := storage[SidebarStateKey] == "true";
      } else {
        isCollapsed := true;
      }
    }

    /** `saveSidebarState`: stores the state's text under the key and
        touches no other entry. */
    method SaveSidebarState(isCollapsed: bool)
      modifies this
      ensures storage == old(storage)[SidebarStateKey := BoolText(isCollapsed)]
      ensures collapsed == old(collapsed)
      ensures SidebarState(Saved()) == isCollapsed
    {
      storage := storage[SidebarStateKey := BoolText(isCollapsed)];
    }

    /** `initSidebar`: the class follows the stored state. */
    method InitSidebar()
      modifies this
      ensures storage == old(storage)
      ensures collapsed == SidebarState(Saved())
      ensures Consistent()
    {
      collapsed := GetSidebarState();
    }

    /** The toggle button: flips the class and stores the new state, so the
        next page load shows the sidebar as it was left. */
    method Toggle()
      modifies this
      ensures collapsed == !old(collapsed)
      ensures storage == old(storage)[SidebarStateKey := BoolText(collapsed)]
      ensures Consistent()
    {
      collapsed := !collapsed;
      SaveSidebarState(collapsed);
    }
  }

  // -------------------------------------------------------- password change

  const PasswordsMismatch: string := "Нові паролі не співпадають"
  const PasswordChangeFailed: string := "Помилка зміни пароля"

  /** The body posted to `/api/auth/change-password/`. */
  datatype PasswordBody = PasswordBody(oldPassword: string, newPassword: string, newPasswordConfirm: string)

  /** The profile dialog's submit: two different new passwords stop at an
      alert and send nothing; otherwise the three values are posted. */
  function PasswordSubmit(oldPassword: string, newPassword: string, confirm: string): (r: Result<PasswordBody, string>)
    ensures r.Ok? <==> newPassword == confirm
    ensures r.Err? ==> r.error == PasswordsMismatch
    ensures r.Ok? ==> r.value == PasswordBody(oldPassword, newPassword, confirm)
  {
    if newPassword != confirm then Err(PasswordsMismatch)
    else Ok(PasswordBody(oldPassword, newPassword, confirm))
  }

  /** A request the page sends never fails on the server's own mismatch
      check: the page sends only equal new passwords, so the confirmation is
      reported exactly when it is blank, and a rejection always names a
      field. */
  lemma SentChangeNeverMismatches(oldPassword: string, newPassword: string, confirm: string,
                                  verifies: string -> bool, accepts: string -> bool)
    requires PasswordSubmit(oldPassword, newPassword, confirm).Ok?
    ensures var b := PasswordSubmit(oldPassword, newPassword, confirm).value;
      var r := ChangePassword(Some(b.oldPassword), Some(b.newPassword), Some(b.newPasswordConfirm), verifies, accepts);
      r.Err? ==> r.error != [] && ("new_password_confirm" in r.error <==> Strip(confirm) == "")
  {
  }

  /** The body of a rejected password change: the message lists of the
      three fields, or a body that is not JSON. */
  datatype PasswordErrors =
    | FieldErrors(oldPassword: Option<seq<string>>, newPassword: Option<seq<string>>, newPasswordConfirm: Option<seq<string>>)
    | NotJson

  function First(messages: seq<string>): string {
    if |messages| > 0 then messages[0] else "undefined"
  }

  /** The alert after a rejection: the old password's first message, else
      the new password's, else the confirmation's, else a generic text,
      which is also what an unreadable body gives. */
  function PasswordAlert(body: PasswordErrors): (text: string)
    ensures body.NotJson? ==> text == PasswordChangeFailed
    ensures body.FieldErrors? && body.oldPassword.Some? ==> text == First(body.oldPassword.value)
    ensures body.FieldErrors? && body.oldPassword.None? && body.newPassword.Some? ==> text == First(body.newPassword.value)
    ensures body.FieldErrors? && body.oldPassword.None? && body.newPassword.None? && body.newPasswordConfirm.Some? ==>
      text == First(body.newPasswordConfirm.value)
    ensures body == FieldErrors(None, None, None) ==> text == PasswordChangeFailed
  {
    match body
    case NotJson => PasswordChangeFailed
    case FieldErrors(o, n, c) =>
      if o.Some? then First(o.value)
      else if n.Some? then First(n.value)
      else if c.Some? then First(c.value)
      else PasswordChangeFailed
  }

  /** The JSON the server sends for a list of failed fields, each with its message. */
  function ErrorBody(fields: seq<string>, message: string -> string): (body: PasswordErrors)
    ensures body.FieldErrors?
    ensures body.oldPassword.Some? <==> "old_password" in fields
    ensures body.newPassword.Some? <==> "new_password" in fields
    ensures body.newPasswordConfirm.Some? <==> "new_password_confirm" in fields
  {
    FieldErrors(
      if "old_password" in fields then Some([message("old_password")]) else None,
      if "new_password" in fields then Some([message("new_password")]) else None,
      if "new_password_confirm" in fields then Some([message("new_password_confirm")]) else None)
  }

  /** Whatever the server rejects, the alert shows the message of the first
      field it reports. */
  lemma AlertShowsFirstError(current: string, chosen: string, confirm: string,
                             verifies: string -> bool, accepts: string -> bool, message: string -> string)
    requires ChangePassword(Some(current), Some(chosen), Some(confirm), verifies, accepts).Err?
    ensures var fields := ChangePassword(Some(current), Some(chosen), Some(confirm), verifies, accepts).error;
      fields != [] && PasswordAlert(ErrorBody(fields, message)) == message(fields[0])
  {
    var fields := ChangePassword(Some(current), Some(chosen), Some(confirm), verifies, accepts).error;
    if !Given(Some(current)) || !verifies(Strip(current)) {
      assert fields[0] == "old_password";
    } else if !Given(Some(chosen)) || !accepts(Strip(chosen)) {
      assert fields[0] == "new_password";
      assert "old_password" !in fields;
    } else {
      assert fields == ["new_password_confirm"];
    }
  }
}
