/** Sign-up by invitation and password change (api/serializers.py,
    api/views.py). Registration needs matching passwords and a live invite
    whose e-mail matches, compared case-insensitively, and it consumes the
    invite; a password change needs the old password and two equal new
    ones. Every text field strips surrounding whitespace. The fields the
    serializers declare themselves (the passwords, the token, the
    password-change fields) refuse a blank value, as the REST framework's
    `CharField` does by default; the e-mail and the names follow the
    `blank` flags of the user model's fields, which are a parameter here.
    Django's password validators and password hashing are foreign code:
    they are parameters too. */
module Registration {

  import opened Outcomes
  import opened Entities
  import opened Text

  /** An `InviteToken` row: the invited address and its expiry. */
  datatype Invite = Invite(email: string, expiresAt: Timestamp)

  /** The registration request body; `None` is a key the body leaves out.
      The e-mail and both names are required (`extra_kwargs`), the token is
      optional and may be blank. */
  datatype SignUp = SignUp(
    email: Option<string>, password: Option<string>, password2: Option<string>,
    firstName: Option<string>, lastName: Option<string>, inviteToken: Option<string>)

  /** The `blank` flags of the user model's `email`, `first_name` and
      `last_name` fields. A `ModelSerializer` field takes its
      `allow_blank` from them, and `extra_kwargs` only adds
      `required=True`. */
  datatype Blankness = Blankness(email: bool, firstName: bool, lastName: bool)

  /** What validation hands to `create`: the stripped values. */
  datatype SignUpData = SignUpData(email: string, password: string, firstName: string, lastName: string, token: string)

  const PasswordsDiffer: string := "Паролі не співпадають"
  const InvalidInvite: string := "Недійсне запрошення."
  const InviteExpired: string := "Термін дії запрошення минув."
  const EmailMismatch: string := "Email не відповідає запрошенню."
  const FieldRequired: string := "This field is required."
  const FieldBlank: string := "This field may not be blank."

  /** A validation error: the field it is reported under, and its text
      (`None` for the password validators' own messages). */
  datatype FieldError = FieldError(field: string, message: Option<string>)

  /** A REST framework `CharField` with its default `trim_whitespace`: a
      missing key is required, a value that strips to nothing is blank
      (refused unless `allowBlank`, when it becomes ""), and any other value
      is stripped with Python's `str.strip()`. */
  function CharField(raw: Option<string>, allowBlank: bool): (r: Result<string, string>)
    ensures r.Ok? <==> raw.Some? && (allowBlank || Strip(raw.value) != "")
    ensures r.Ok? ==> r.value == Strip(raw.value)
    ensures r.Err? ==> r.error == (if raw.None? then FieldRequired else FieldBlank)
  {
    if raw.None? then Err(FieldRequired)
    else if Strip(raw.value) == "" then (if allowBlank then Ok("") else Err(FieldBlank))
    else Ok(Strip(raw.value))
  }

  /** A present value, which must not strip to nothing unless blank is
      allowed. */
  predicate Filled(raw: Option<string>, allowBlank: bool) {
    raw.Some? && (allowBlank || Strip(raw.value) != "")
  }

  /** A present value that does not strip to nothing. */
  predicate Given(raw: Option<string>) {
    raw.Some? && Strip(raw.value) != ""
  }

  /** The token `validate` sees: stripped, and "" when the optional key is
      missing, so that both fail `if not token`. */
  function TokenOf(s: SignUp): string {
    if s.inviteToken.None? then "" else Strip(s.inviteToken.value)
  }

  /** The field-level error of one required `CharField`, if any. */
  function RequiredErrors(field: string, raw: Option<string>, allowBlank: bool): (errors: seq<FieldError>)
    ensures errors == [] <==> Filled(raw, allowBlank)
  {
    match CharField(raw, allowBlank)
    case Err(e) => [FieldError(field, Some(e))]
    case Ok(_) => []
  }

  /** The field-level errors of a sign-up, collected in the declared order:
      the e-mail, the password (required, not blank, then the password
      validators, `accepts`, on the stripped value), the confirmation, the
      first name and the last name. The e-mail and the names refuse a blank
      value only where `blank` says so. */
  function SignUpFieldErrors(s: SignUp, blank: Blankness, accepts: string -> bool): (errors: seq<FieldError>)
    ensures errors == [] <==>
      Filled(s.email, blank.email) && Given(s.password) && Given(s.password2) && accepts(Strip(s.password.value))
      && Filled(s.firstName, blank.firstName) && Filled(s.lastName, blank.lastName)
  {
    var passwordErrors :=
      if !Given(s.password) then RequiredErrors("password", s.password, false)
      else if !accepts(Strip(s.password.value)) then [FieldError("password", None)]
      else [];
    RequiredErrors("email", s.email, blank.email) + passwordErrors + RequiredErrors("password2", s.password2, false)
    + RequiredErrors("first_name", s.firstName, blank.firstName) + RequiredErrors("last_name", s.lastName, blank.lastName)
  }

  /** The serializer's `validate`, on the stripped values, stopping at its
      first failure: equal passwords, a given and known token, an unexpired
      invite, the invited address. */
  function SignUpChecks(email: string, password: string, password2: string, token: string,
                        firstName: string, lastName: string, invites: map<string, Invite>, now: Timestamp)
    : (r: Result<SignUpData, seq<FieldError>>)
    ensures r.Ok? <==>
      password == password2 && token != "" && token in invites && !(invites[token].expiresAt < now)
      && Lower(invites[token].email) == Lower(email)
    ensures r.Ok? ==> r.value == SignUpData(email, password, firstName, lastName, token)
    ensures r.Err? ==> |r.error| == 1
  {
    if password != password2 then Err([FieldError("password", Some(PasswordsDiffer))])
    else if token == "" || token !in invites then Err([FieldError("invite_token", Some(InvalidInvite))])
    else if invites[token].expiresAt < now then Err([FieldError("invite_token", Some(InviteExpired))])
    else if Lower(invites[token].email) != Lower(email) then Err([FieldError("email", Some(EmailMismatch))])
    else Ok(SignUpData(email, password, firstName, lastName, token))
  }

  /** `UserRegistrationSerializer` validation: every field on its own, all
      errors collected; only when no field failed does `validate` run. */
  function ValidateSignUp(s: SignUp, blank: Blankness, accepts: string -> bool, invites: map<string, Invite>, now: Timestamp)
    : (r: Result<SignUpData, seq<FieldError>>)
    ensures r.Ok? ==>
      Filled(s.email, blank.email) && Given(s.password) && Given(s.password2)
      && Filled(s.firstName, blank.firstName) && Filled(s.lastName, blank.lastName)
      && accepts(Strip(s.password.value)) && Strip(s.password.value) == Strip(s.password2.value)
      && TokenOf(s) != "" && TokenOf(s) in invites && !(invites[TokenOf(s)].expiresAt < now)
      && Lower(invites[TokenOf(s)].email) == Lower(Strip(s.email.value))
    ensures r.Ok? ==>
      r.value == SignUpData(Strip(s.email.value), Strip(s.password.value), Strip(s.firstName.value), Strip(s.lastName.value), TokenOf(s))
    ensures r.Err? ==> r.error != []
  {
    var errors := SignUpFieldErrors(s, blank, accepts);
    if errors != [] then Err(errors)
    else SignUpChecks(Strip(s.email.value), Strip(s.password.value), Strip(s.password2.value), TokenOf(s),
                      Strip(s.firstName.value), Strip(s.lastName.value), invites, now)
  }

  /** Every condition is needed: a sign-up that meets them all passes. */
  lemma SignUpComplete(s: SignUp, blank: Blankness, accepts: string -> bool, invites: map<string, Invite>, now: Timestamp)
    requires Filled(s.email, blank.email) && Given(s.password) && Given(s.password2)
    requires Filled(s.firstName, blank.firstName) && Filled(s.lastName, blank.lastName)
    requires accepts(Strip(s.password.value)) && Strip(s.password.value) == Strip(s.password2.value)
    requires TokenOf(s) != "" && TokenOf(s) in invites && now <= invites[TokenOf(s)].expiresAt
    requires Lower(invites[TokenOf(s)].email) == Lower(Strip(s.email.value))
    ensures ValidateSignUp(s, blank, accepts, invites, now).Ok?
  {
  }

  /** A missing or blank required field is reported under its own name,
      whatever else is wrong, and the cross-field checks are not reached. */
  lemma MissingFieldReported(s: SignUp, blank: Blankness, accepts: string -> bool, invites: map<string, Invite>, now: Timestamp)
    requires !Given(s.password)
    ensures var r := ValidateSignUp(s, blank, accepts, invites, now);
      r.Err? && FieldError("password", Some(if s.password.None? then FieldRequired else FieldBlank)) in r.error
      && forall e :: e in r.error ==> e.field != "invite_token"
  {
    var mine := RequiredErrors("password", s.password, false);
    var names := RequiredErrors("first_name", s.firstName, blank.firstName) + RequiredErrors("last_name", s.lastName, blank.lastName);
    var email := RequiredErrors("email", s.email, blank.email);
    var errors := email + mine + RequiredErrors("password2", s.password2, false) + names;
    assert SignUpFieldErrors(s, blank, accepts) == errors;
    assert errors[|email|] == mine[0];
  }

  /** A body without `first_name`, or with a blank one where the user model
      refuses blank names, is refused with that field reported as required
      or blank, however valid the rest of it is. */
  lemma MissingNameReported(s: SignUp, blank: Blankness, accepts: string -> bool, invites: map<string, Invite>, now: Timestamp)
    requires !Filled(s.firstName, blank.firstName)
    ensures var r := ValidateSignUp(s, blank, accepts, invites, now);
      r.Err? && FieldError("first_name", Some(if s.firstName.None? then FieldRequired else FieldBlank)) in r.error
  {
    var front := RequiredErrors("email", s.email, blank.email)
      + (if !Given(s.password) then RequiredErrors("password", s.password, false)
         else if !accepts(Strip(s.password.value)) then [FieldError("password", None)] else [])
      + RequiredErrors("password2", s.password2, false);
    var errors := front + RequiredErrors("first_name", s.firstName, blank.firstName) + RequiredErrors("last_name", s.lastName, blank.lastName);
    assert SignUpFieldErrors(s, blank, accepts) == errors;
    assert errors[|front|] == FieldError("first_name", Some(if s.firstName.None? then FieldRequired else FieldBlank));
  }

  /** Where the user model allows a blank first name, a sign-up that passes
      with some first name also passes with a blank one, and the user is
      created with the first name "". */
  lemma BlankNameStoredEmpty(s: SignUp, name: string, blank: Blankness, accepts: string -> bool, invites: map<string, Invite>, now: Timestamp)
    requires blank.firstName && Strip(name) == ""
    requires ValidateSignUp(s, blank, accepts, invites, now).Ok?
    ensures var r := ValidateSignUp(s.(firstName := Some(name)), blank, accepts, invites, now);
      r.Ok? && r.value == ValidateSignUp(s, blank, accepts, invites, now).value.(firstName := "")
  {
  }

  /** Whitespace around a password is not part of it: typing it with a
      trailing blank registers the same account. */
  lemma PaddedPasswordStripped(s: SignUp, blank: Blankness, accepts: string -> bool, invites: map<string, Invite>, now: Timestamp)
    requires s.password.Some? && s.password.value != []
    requires !IsPythonSpace(s.password.value[0]) && !IsPythonSpace(s.password.value[|s.password.value| - 1])
    ensures ValidateSignUp(s.(password := Some(s.password.value + " ")), blank, accepts, invites, now)
            == ValidateSignUp(s, blank, accepts, invites, now)
  {
    StripBlankAfter(s.password.value);
  }

  /** The address is compared without regard to case: two sign-ups that
      differ only in the case of the address are judged alike, up to the
      address they hand on. */
  lemma SignUpEmailCaseInsensitive(s: SignUp, email: string, blank: Blankness, accepts: string -> bool, invites: map<string, Invite>, now: Timestamp)
    requires s.email.Some? && Lower(Strip(email)) == Lower(Strip(s.email.value))
    ensures ValidateSignUp(s.(email := Some(email)), blank, accepts, invites, now).Ok? == ValidateSignUp(s, blank, accepts, invites, now).Ok?
  {
  }

  /** An invite still valid at `now` was valid at every earlier moment:
      expiry is one-way. */
  lemma InviteExpiryMonotone(s: SignUp, blank: Blankness, accepts: string -> bool, invites: map<string, Invite>, earlier: Timestamp, now: Timestamp)
    requires earlier <= now && ValidateSignUp(s, blank, accepts, invites, now).Ok?
    ensures ValidateSignUp(s, blank, accepts, invites, earlier).Ok?
  {
  }

  /** The user accounts and the outstanding invites. */
  class Accounts {
    var invites: map<string, Invite>
    var users: seq<User>
    var nextId: UserId

    constructor ()
      ensures invites == map[] && users == [] && nextId == 1
    {
      invites := map[];
      users := [];
      nextId := 1;
    }

    /** `RegisterAPIView.create`: validate, then delete the invite and
        create the user with the stripped address and names; the user is
        not a superuser. */
    method Register(s: SignUp, blank: Blankness, accepts: string -> bool, now: Timestamp) returns (r: Result<UserId, seq<FieldError>>)
      modifies this
      ensures var v := ValidateSignUp(s, blank, accepts, old(invites), now);
        (v.Err? ==> r == Err(v.error) && invites == old(invites) && users == old(users) && nextId == old(nextId))
        && (v.Ok? ==>
              r == Ok(old(nextId)) && invites == old(invites) - {TokenOf(s)}
              && users == old(users) + [User(old(nextId), Strip(s.email.value), Strip(s.firstName.value), Strip(s.lastName.value), false)] && nextId == old(nextId) + 1)
    {
      var v := ValidateSignUp(s, blank, accepts, invites, now);
      if v.Err? {
        return Err(v.error);
      }
      var data := v.value;
      assert data.token == TokenOf(s) && data.email == Strip(s.email.value);
      assert data.firstName == Strip(s.firstName.value) && data.lastName == Strip(s.lastName.value);
      invites := invites - {data.token};
      users := users + [User(nextId, data.email, data.firstName, data.lastName, false)];
      r := Ok(nextId);
      nextId := nextId + 1;
    }
  }

  /** Each invite is single-use: once a sign-up has consumed it, the same
      sign-up is refused as an unknown invite. */
  lemma InviteSingleUse(s: SignUp, blank: Blankness, accepts: string -> bool, invites: map<string, Invite>, now: Timestamp, later: Timestamp)
    requires ValidateSignUp(s, blank, accepts, invites, now).Ok?
    ensures ValidateSignUp(s, blank, accepts, invites - {TokenOf(s)}, later) == Err([FieldError("invite_token", Some(InvalidInvite))])
  {
  }

  // -------------------------------------------------------- password change

  /** `ChangePasswordSerializer` validation. Field by field, in order, each
      value a `CharField` (required, not blank, stripped): the current
      password must verify (`verifies`, the user's `check_password`, given
      the stripped value); the chosen one must pass the validators
      (`accepts`). Only when no field failed are the two stripped new
      passwords compared. Success yields the stripped password to set. */
  function ChangePassword(current: Option<string>, chosen: Option<string>, confirm: Option<string>,
                          verifies: string -> bool, accepts: string -> bool): (r: Result<string, seq<string>>)
    ensures r.Ok? <==>
      Given(current) && Given(chosen) && Given(confirm) && verifies(Strip(current.value))
      && accepts(Strip(chosen.value)) && Strip(chosen.value) == Strip(confirm.value)
    ensures r.Ok? ==> r.value == Strip(chosen.value)
    ensures r.Err? ==> r.error != []
  {
    var errors :=
      (if !Given(current) || !verifies(Strip(current.value)) then ["old_password"] else [])
      + (if !Given(chosen) || !accepts(Strip(chosen.value)) then ["new_password"] else [])
      + (if !Given(confirm) then ["new_password_confirm"] else []);
    if errors != [] then Err(errors)
    else if Strip(chosen.value) != Strip(confirm.value) then Err(["new_password_confirm"])
    else Ok(Strip(chosen.value))
  }

  /** A mismatch of the two chosen passwords is reported only once every
      field has passed on its own. */
  lemma MismatchReportedLast(current: string, chosen: string, confirm: string, verifies: string -> bool, accepts: string -> bool)
    requires Strip(chosen) != Strip(confirm) && Strip(confirm) != ""
    ensures var r := ChangePassword(Some(current), Some(chosen), Some(confirm), verifies, accepts);
      r.Err? && (r.error == ["new_password_confirm"] <==>
                 Given(Some(current)) && verifies(Strip(current)) && Given(Some(chosen)) && accepts(Strip(chosen)))
  {
    var r := ChangePassword(Some(current), Some(chosen), Some(confirm), verifies, accepts);
    if !Given(Some(current)) || !verifies(Strip(current)) {
      assert r.error[0] == "old_password";
    } else if !Given(Some(chosen)) || !accepts(Strip(chosen)) {
      assert r.error[0] == "new_password";
    }
  }

  /** A new password typed with a trailing blank, and confirmed without it,
      is accepted, and what is set is the password without the blank. */
  lemma PaddedNewPasswordSetStripped(current: string, chosen: string, verifies: string -> bool, accepts: string -> bool)
    requires chosen != [] && !IsPythonSpace(chosen[0]) && !IsPythonSpace(chosen[|chosen| - 1])
    requires Given(Some(current)) && verifies(Strip(current)) && accepts(chosen)
    ensures ChangePassword(Some(current), Some(chosen + " "), Some(chosen), verifies, accepts) == Ok(chosen)
  {
    StripBlankAfter(chosen);
    StripUnpadded(chosen);
  }
}
