/** The profile editor of frontend/src/Profile.js: the journalist toggle and the
    change-password dialog. As in the navbar, the state variables are the fields of
    `ProfileComponent`, a handler works from the values of its render, and each
    handler method is specified by a function on `ProfileState`. `passwordData` is a
    JavaScript object, whose keys are either property names or the indices a spread
    string contributes. */
module ProfileEditor {
  import opened Common
  import opened Forms
  import Accounts

  /** A JavaScript object holding strings: its named properties, and its index
      properties (`"0"`, `"1"`, ...), each a one-unit string given by that UTF-16 code
      unit. */
  datatype PasswordData = PasswordData(named: map<string, string>, indexed: map<nat, int>)

  datatype ProfileState = ProfileState(
    fullName: Option<string>,
    isJournalist: bool,
    employmentType: Option<string>,
    organizationName: Option<string>,
    passwordData: PasswordData,
    passwordCriteriaMet: bool,
    passwordCriteriaError: string,
    passwordsMatch: bool,
    passwordMatchError: string)

  /** Reading a property: `undefined` when it is absent. */
  function Get(d: PasswordData, name: string): (v: Option<string>)
    ensures v.Some? <==> name in d.named
    ensures v.Some? ==> v.value == d.named[name]
  {
    if name in d.named then Some(d.named[name]) else None
  }

  /** `{...d, name: value}`. */
  function With(d: PasswordData, name: string, value: string): PasswordData
  {
    d.(named := d.named[name := value])
  }

  /** A value JavaScript's `if` takes as true: a non-empty string. */
  predicate Truthy(v: Option<string>)
  {
    v.Some? && v.value != ""
  }

  /** `{...s}` for a string `s`: one index per UTF-16 code unit, holding that unit, and
      no named property. */
  function Spread(s: string): (d: PasswordData)
    ensures d.named == map[]
    ensures forall i: nat :: i in d.indexed <==> i < |Utf16(s)|
    ensures forall i :: 0 <= i < |Utf16(s)| ==> d.indexed[i] == Utf16(s)[i]
  {
    PasswordData(map[], map i: nat | i < |Utf16(s)| :: Utf16(s)[i])
  }

  // ---------------------------------------------------------------- transitions

  /** The effect of `useEffect` when the loaded profile arrives. */
  function ProfileLoaded(s: ProfileState, p: Accounts.Profile): ProfileState
  {
    s.(fullName := p.fullName, isJournalist := p.isJournalist,
       employmentType := p.typeOfEmployment, organizationName := p.organizationName)
  }

  /** `handleIsJournalistChange`. */
  function JournalistToggled(s: ProfileState): ProfileState
  {
    s.(isJournalist := !s.isJournalist, employmentType := None, organizationName := None)
  }

  /** `handleOldPasswordChange(value)`: the string itself is spread, so the object is
      rebuilt from its characters and `old_password`. */
  function OldPasswordChanged(s: ProfileState, value: string): ProfileState
  {
    s.(passwordData := With(Spread(value), "old_password", value))
  }

  function CriteriaChecked(s: ProfileState, tested: string): ProfileState
  {
    var c := ValidatePasswordCriteria(tested);
    s.(passwordCriteriaMet := c.ok, passwordCriteriaError := c.error)
  }

  function MatchChecked(s: ProfileState, password: Option<string>, confirmation: Option<string>): ProfileState
  {
    var c := ValidatePasswordsMatch(password, confirmation);
    s.(passwordsMatch := c.ok, passwordMatchError := c.error)
  }

  /** `handlePasswordChange(value)`: `validatePasswordCriteria` tests the rendered
      `passwordData.new_password`, and the match is checked only when the rendered
      confirmation is a non-empty string. */
  function PasswordChanged(s: ProfileState, value: string): ProfileState
  {
    var rendered := s.passwordData;
    var t := CriteriaChecked(s.(passwordData := With(rendered, "new_password", value)),
                             JsString(Get(rendered, "new_password")));
    if Truthy(Get(rendered, "confirmation_password")) then
      MatchChecked(t, Some(value), Get(rendered, "confirmation_password"))
    else t
  }

  /** `handleConfirmationPasswordChange(value)`: compared with the rendered new password. */
  function ConfirmationChanged(s: ProfileState, value: string): ProfileState
  {
    var rendered := s.passwordData;
    MatchChecked(s.(passwordData := With(rendered, "confirmation_password", value)),
                 Get(rendered, "new_password"), Some(value))
  }

  /** The Update button is enabled (line 354). */
  predicate UpdateEnabled(s: ProfileState)
  {
    s.passwordCriteriaMet && s.passwordsMatch
  }

  /** The old and new password `handlePasswordUpdate` sends: a property that is
      `undefined` is left out of the JSON text, so the endpoint reads it as missing. */
  function PasswordRequest(s: ProfileState): (r: (Option<string>, Option<string>))
    ensures r.0.Some? <==> "old_password" in s.passwordData.named
    ensures r.1.Some? <==> "new_password" in s.passwordData.named
  {
    (Get(s.passwordData, "old_password"), Get(s.passwordData, "new_password"))
  }

  function Initial(): ProfileState
  {
    ProfileState(Some(""), false, Some(""), Some(""),
      PasswordData(map["old_password" := "", "new_password" := "", "confirmation_password" := ""], map[]),
      false, "", true, "")
  }

  // ---------------------------------------------------------------- properties

  /** Toggling flips the flag and clears both employment fields; toggling twice
      restores the flag but not the fields. */
  lemma ToggleClearsEmployment(s: ProfileState)
    ensures JournalistToggled(s).isJournalist == !s.isJournalist
    ensures JournalistToggled(s).employmentType.None? && JournalistToggled(s).organizationName.None?
    ensures JournalistToggled(JournalistToggled(s)).isJournalist == s.isJournalist
    ensures JournalistToggled(s).passwordData == s.passwordData
  {
  }

  /** Typing the old password rebuilds the object from that string: it holds the
      string's UTF-16 code units under their indices and `old_password`, and the new
      password and its
      confirmation are gone, so a request sent now has no new password and the
      endpoint answers that both fields are required. */
  lemma OldPasswordDropsOthers(s: ProfileState, value: string)
    ensures var d := OldPasswordChanged(s, value).passwordData;
      && Get(d, "old_password") == Some(value)
      && Get(d, "new_password").None? && Get(d, "confirmation_password").None?
      && d.named.Keys == {"old_password"}
      && (forall i: nat :: i in d.indexed <==> i < |Utf16(value)|)
      && (forall i :: 0 <= i < |Utf16(value)| ==> d.indexed[i] == Utf16(value)[i])
    ensures PasswordRequest(OldPasswordChanged(s, value)) == (Some(value), None)
  {
  }

  /** After the old password is typed, the first character typed into the new password
      is checked against "undefined", which fails the criteria. */
  lemma FirstNewPasswordKeyFailsCriteria(s: ProfileState, oldValue: string, value: string)
    ensures !PasswordChanged(OldPasswordChanged(s, oldValue), value).passwordCriteriaMet
  {
    UndefinedFailsCriteria();
  }

  /** Typing the new password or the confirmation replaces that one property and keeps
      every other. */
  lemma EditsKeepOtherFields(s: ProfileState, value: string)
    ensures PasswordChanged(s, value).passwordData.named == s.passwordData.named["new_password" := value]
    ensures ConfirmationChanged(s, value).passwordData.named == s.passwordData.named["confirmation_password" := value]
    ensures PasswordChanged(s, value).passwordData.indexed == s.passwordData.indexed
    ensures ConfirmationChanged(s, value).passwordData.indexed == s.passwordData.indexed
    ensures PasswordChanged(s, value).isJournalist == s.isJournalist
    ensures ConfirmationChanged(s, value).isJournalist == s.isJournalist
  {
  }

  /** The criteria flag describes the new password typed before the current one, so a
      failing password typed after a good one still enables Update when it equals the
      confirmation. */
  lemma StaleCriteriaEnableUpdate(s: ProfileState, value: string)
    requires PasswordCriteria(JsString(Get(s.passwordData, "new_password")))
    requires Get(s.passwordData, "confirmation_password") == Some(value) && value != ""
    ensures UpdateEnabled(PasswordChanged(s, value))
    ensures Get(PasswordChanged(s, value).passwordData, "new_password") == Some(value)
  {
  }

  /** After a confirmation is typed, Update is enabled only if it equals the new
      password the request will carry, and the rendered criteria flag was set. */
  lemma ConfirmationEnablesOnlyOnMatch(s: ProfileState, value: string)
    ensures UpdateEnabled(ConfirmationChanged(s, value)) <==>
      s.passwordCriteriaMet && Get(s.passwordData, "new_password") == Some(value)
    ensures PasswordRequest(ConfirmationChanged(s, value)).1 == Get(s.passwordData, "new_password")
  {
  }

  /** Typing the old password, then the new one, then its confirmation sends both
      passwords. */
  lemma InOrderSendsBoth(s: ProfileState, oldValue: string, newValue: string, confirmation: string)
    ensures PasswordRequest(ConfirmationChanged(PasswordChanged(OldPasswordChanged(s, oldValue), newValue), confirmation))
      == (Some(oldValue), Some(newValue))
  {
    var t := OldPasswordChanged(s, oldValue);
    OldPasswordDropsOthers(s, oldValue);
    EditsKeepOtherFields(t, newValue);
    EditsKeepOtherFields(PasswordChanged(t, newValue), confirmation);
  }

  // ---------------------------------------------------------------- the component

  class ProfileComponent {
    var fullName: Option<string>
    var isJournalist: bool
    var employmentType: Option<string>
    var organizationName: Option<string>
    var passwordData: PasswordData
    var passwordCriteriaMet: bool
    var passwordCriteriaError: string
    var passwordsMatch: bool
    var passwordMatchError: string

    function Snapshot(): ProfileState
      reads this
    {
      ProfileState(fullName, isJournalist, employmentType, organizationName, passwordData,
                   passwordCriteriaMet, passwordCriteriaError, passwordsMatch, passwordMatchError)
    }

    constructor ()
      ensures Snapshot() == Initial()
    {
      fullName := Some("");
      isJournalist := false;
      employmentType := Some("");
      organizationName := Some("");
      passwordData := PasswordData(map["old_password" := "", "new_password" := "", "confirmation_password" := ""], map[]);
      passwordCriteriaMet := false;
      passwordCriteriaError := "";
      passwordsMatch := true;
      passwordMatchError := "";
    }

    method LoadProfile(p: Accounts.Profile)
      modifies this
      ensures Snapshot() == ProfileLoaded(old(Snapshot()), p)
    {
      fullName := p.fullName;
      isJournalist := p.isJournalist;
      employmentType := p.typeOfEmployment;
      organizationName := p.organizationName;
    }

    method HandleIsJournalistChange()
      modifies this
      ensures Snapshot() == JournalistToggled(old(Snapshot()))
    {
      isJournalist := !isJournalist;
      employmentType := None;
      organizationName := None;
    }

    method HandleOldPasswordChange(value: string)
      modifies this
      ensures Snapshot() == OldPasswordChanged(old(Snapshot()), value)
    {
      passwordData := With(Spread(value), "old_password", value);
    }

    /** `validatePasswordCriteria` on the rendered new password. */
    method ValidateCriteriaOf(tested: string)
      modifies this
      ensures Snapshot() == CriteriaChecked(old(Snapshot()), tested)
    {
      var c := ValidatePasswordCriteria(tested);
      passwordCriteriaMet := c.ok;
      passwordCriteriaError := c.error;
    }

    method ValidateMatchOf(password: Option<string>, confirmation: Option<string>)
      modifies this
      ensures Snapshot() == MatchChecked(old(Snapshot()), password, confirmation)
    {
      var c := ValidatePasswordsMatch(password, confirmation);
      passwordsMatch := c.ok;
      passwordMatchError := c.error;
    }

    method HandlePasswordChange(value: string)
      modifies this
      ensures Snapshot() == PasswordChanged(old(Snapshot()), value)
    {
      var rendered := passwordData;
      passwordData := With(rendered, "new_password", value);
      ValidateCriteriaOf(JsString(Get(rendered, "new_password")));
      if Truthy(Get(rendered, "confirmation_password")) {
        ValidateMatchOf(Some(value), Get(rendered, "confirmation_password"));
      }
    }

    method HandleConfirmationPasswordChange(value: string)
      modifies this
      ensures Snapshot() == ConfirmationChanged(old(Snapshot()), value)
    {
      var rendered := passwordData;
      passwordData := With(rendered, "confirmation_password", value);
      ValidateMatchOf(Get(rendered, "new_password"), Some(value));
    }
  }
}
