/** The register and login logic of frontend/src/navbar.js. The component's state
    variables are the fields of `NavbarComponent`; a handler reads the values of the
    render it was created in, so every setter in it works from those values, and the
    new values appear together once it returns. Each handler method is specified by a
    function from the rendered state to the next one, and the properties are lemmas
    about those functions. */
module Navbar {
  import opened Common
  import opened Forms
  import Accounts

  /** What `emailError` holds: the register form's text, or `true` once a login was
      refused with 'Invalid email'. */
  datatype EmailError = Message(text: string) | Flagged

  datatype FormData = FormData(email: string, password: string, confirmationPassword: string)

  datatype NavbarState = NavbarState(
    formData: FormData,
    registerStep: int,
    emailValidation: bool,
    emailError: EmailError,
    passwordCriteriaMet: bool,
    passwordCriteriaError: string,
    passwordsMatch: bool,
    passwordMatchError: string,
    isActive: bool,
    passError: bool,
    showLoginModal: bool,
    showNotActiveModal: bool)

  // ---------------------------------------------------------------- transitions

  /** `validateEmail`, which tests the rendered `formData.email` whatever it is passed. */
  function EmailChecked(s: NavbarState, rendered: string): NavbarState
  {
    var c := ValidateEmail(rendered);
    s.(emailValidation := c.ok, emailError := Message(c.error))
  }

  /** `validatePasswordCriteria`, which tests the rendered `formData.password` whatever
      it is passed. */
  function CriteriaChecked(s: NavbarState, rendered: string): NavbarState
  {
    var c := ValidatePasswordCriteria(rendered);
    s.(passwordCriteriaMet := c.ok, passwordCriteriaError := c.error)
  }

  function MatchChecked(s: NavbarState, password: Option<string>, confirmation: Option<string>): NavbarState
  {
    var c := ValidatePasswordsMatch(password, confirmation);
    s.(passwordsMatch := c.ok, passwordMatchError := c.error)
  }

  /** `handleEmailChange(value)`. */
  function EmailChanged(s: NavbarState, value: string): NavbarState
  {
    EmailChecked(s.(formData := s.formData.(email := value)), s.formData.email)
  }

  /** `handlePasswordChange(newPass)`: the criteria are tested on the rendered
      password, the match on the new one, and only when a confirmation was typed. */
  function PasswordChanged(s: NavbarState, newPass: string): NavbarState
  {
    var t := CriteriaChecked(s.(formData := s.formData.(password := newPass)), s.formData.password);
    if s.formData.confirmationPassword != "" then
      MatchChecked(t, Some(newPass), Some(s.formData.confirmationPassword))
    else t
  }

  /** `handleConfirmationPasswordChange(value)`. */
  function ConfirmationChanged(s: NavbarState, value: string): NavbarState
  {
    MatchChecked(s.(formData := s.formData.(confirmationPassword := value)), Some(s.formData.password), Some(value))
  }

  /** `handleRegisterStepNext`: on step 1 it revalidates (`validatePasswordsMatch()` is
      called without arguments and compares two `undefined`) and moves on only if the
      rendered flags were all set; on any other step it moves on. */
  function StepNext(s: NavbarState): NavbarState
  {
    if s.registerStep == 1 then
      var t := MatchChecked(CriteriaChecked(EmailChecked(s, s.formData.email), s.formData.password), None, None);
      if s.emailValidation && s.passwordCriteriaMet && s.passwordsMatch then t.(registerStep := s.registerStep + 1)
      else t
    else s.(registerStep := s.registerStep + 1)
  }

  /** The Previous button. */
  function StepPrevious(s: NavbarState): NavbarState
  {
    s.(registerStep := 1)
  }

  /** The body of a refused login: each key present holds a list of messages. */
  datatype ErrorBody = ErrorBody(username: Option<seq<string>>, userActiveStatus: Option<seq<string>>, password: Option<seq<string>>)

  function FirstOf(messages: seq<string>): Option<string>
  {
    if messages == [] then None else Some(messages[0])
  }

  /** `errorMessage[0]` where `errorMessage` is the first key present, else the text
      'Login failed.', whose first character is 'L'. */
  function ShownMessage(body: ErrorBody): (m: Option<string>)
    ensures body.username.None? && body.userActiveStatus.None? && body.password.None? ==> m == Some("L")
  {
    if body.username.Some? then FirstOf(body.username.value)
    else if body.userActiveStatus.Some? then FirstOf(body.userActiveStatus.value)
    else if body.password.Some? then FirstOf(body.password.value)
    else Some("L")
  }

  /** The `else` branch of `handleLogin`. */
  function LoginRefused(s: NavbarState, body: ErrorBody): NavbarState
  {
    var m := ShownMessage(body);
    var t := if m == Some("Invalid email") then s.(emailError := Flagged) else s;
    var u := if m == Some("Not active.") then t.(isActive := false, showLoginModal := false, showNotActiveModal := true) else t;
    if m == Some("Invalid password") then u.(passError := true) else u
  }

  /** The state of a fresh component. */
  function Initial(): NavbarState
  {
    NavbarState(FormData("", "", ""), 1, true, Message(""), false, "", true, "", true, false, false, false)
  }

  // ---------------------------------------------------------------- properties

  /** From step 1 the step moves to 2 exactly when the flags of the rendered state are
      all set, whatever the form holds now; from any other step it moves on. */
  lemma StepNextUsesRenderedFlags(s: NavbarState)
    ensures s.registerStep == 1 ==>
      StepNext(s).registerStep == (if s.emailValidation && s.passwordCriteriaMet && s.passwordsMatch then 2 else 1)
    ensures s.registerStep != 1 ==> StepNext(s).registerStep == s.registerStep + 1
    ensures StepNext(s).formData == s.formData
    ensures s.registerStep == 1 ==>
      && StepNext(s).passwordsMatch
      && (StepNext(s).emailValidation <==> EmailShape(s.formData.email))
      && (StepNext(s).passwordCriteriaMet <==> PasswordCriteria(s.formData.password))
  {
  }

  /** A valid form whose flags are not all set yet needs two clicks on Next: the first
      sets the flags from the form, the second moves to step 2. */
  lemma ValidFormNeedsSecondClick(s: NavbarState)
    requires s.registerStep == 1
    requires EmailShape(s.formData.email) && PasswordCriteria(s.formData.password)
    requires !(s.emailValidation && s.passwordCriteriaMet && s.passwordsMatch)
    ensures StepNext(s).registerStep == 1
    ensures StepNext(StepNext(s)).registerStep == 2
  {
    StepNextUsesRenderedFlags(s);
    StepNextUsesRenderedFlags(StepNext(s));
  }

  /** Flags left set by an earlier form let Next through even when the form has since
      become invalid. */
  lemma StaleFlagsLetInvalidFormThrough(s: NavbarState)
    requires s.registerStep == 1 && s.emailValidation && s.passwordCriteriaMet && s.passwordsMatch
    requires !EmailShape(s.formData.email)
    ensures StepNext(s).registerStep == 2
    ensures !StepNext(s).emailValidation
  {
    StepNextUsesRenderedFlags(s);
  }

  /** A fresh form never moves on at the first click, since the criteria flag starts
      unset. */
  lemma FirstClickStays()
    ensures StepNext(Initial()).registerStep == 1
  {
  }

  /** Previous always returns to step 1 and touches nothing else. */
  lemma PreviousResets(s: NavbarState)
    ensures StepPrevious(s).registerStep == 1
    ensures StepPrevious(s).(registerStep := s.registerStep) == s
  {
  }

  /** Typing an email validates the address typed before it: the flag reports the
      rendered address and the form holds the new one. */
  lemma EmailCheckLagsOneEdit(s: NavbarState, value: string)
    ensures EmailChanged(s, value).formData.email == value
    ensures EmailChanged(s, value).emailValidation <==> EmailShape(s.formData.email)
    ensures EmailChanged(s, value).emailError == Message("") <==> EmailShape(s.formData.email)
  {
  }

  /** Typing a password tests the criteria on the password typed before it, and the
      match on the new one against the confirmation, only once a confirmation exists. */
  lemma PasswordCheckLagsOneEdit(s: NavbarState, newPass: string)
    ensures PasswordChanged(s, newPass).formData == s.formData.(password := newPass)
    ensures PasswordChanged(s, newPass).passwordCriteriaMet <==> PasswordCriteria(s.formData.password)
    ensures PasswordChanged(s, newPass).passwordCriteriaError == "" <==> PasswordCriteria(s.formData.password)
    ensures s.formData.confirmationPassword != "" ==>
      (PasswordChanged(s, newPass).passwordsMatch <==> newPass == s.formData.confirmationPassword)
    ensures s.formData.confirmationPassword == "" ==>
      PasswordChanged(s, newPass).passwordsMatch == s.passwordsMatch
  {
    var c := ValidatePasswordCriteria(s.formData.password);
    var t := CriteriaChecked(s.(formData := s.formData.(password := newPass)), s.formData.password);
    assert t.formData == s.formData.(password := newPass);
    assert t.passwordCriteriaMet == c.ok && t.passwordCriteriaError == c.error && t.passwordsMatch == s.passwordsMatch;
    if s.formData.confirmationPassword != "" {
      var m := ValidatePasswordsMatch(Some(newPass), Some(s.formData.confirmationPassword));
      assert PasswordChanged(s, newPass) == t.(passwordsMatch := m.ok, passwordMatchError := m.error);
    } else {
      assert PasswordChanged(s, newPass) == t;
    }
  }

  /** Typing a confirmation compares it with the rendered password. */
  lemma ConfirmationComparedWithPassword(s: NavbarState, value: string)
    ensures ConfirmationChanged(s, value).formData == s.formData.(confirmationPassword := value)
    ensures ConfirmationChanged(s, value).passwordsMatch <==> s.formData.password == value
    ensures ConfirmationChanged(s, value).passwordMatchError == "" <==> s.formData.password == value
  {
  }

  /** The body the login endpoint sends for each of its errors; a serializer error
      carries the serializer's own text, `fieldMessage`, under the field's key. */
  function BodyOf(e: Accounts.LoginError, fieldMessage: string): ErrorBody
  {
    match e
    case InvalidFields(u, p) =>
      ErrorBody(if u then Some([fieldMessage]) else None, None, if p then Some([fieldMessage]) else None)
    case InvalidEmail => ErrorBody(Some(["Invalid email"]), None, None)
    case NotActive => ErrorBody(None, Some(["Not active."]), None)
    case InvalidPassword => ErrorBody(None, None, Some(["Invalid password"]))
  }

  /** How the navbar reacts to each refusal of the login endpoint: 'Not active.' closes
      the login dialog and opens the not-active one, 'Invalid email' and 'Invalid
      password' set their markers, and a serializer error changes nothing. */
  lemma LoginReaction(s: NavbarState, e: Accounts.LoginError, fieldMessage: string)
    requires fieldMessage != "Invalid email" && fieldMessage != "Not active." && fieldMessage != "Invalid password"
    ensures var t := LoginRefused(s, BodyOf(e, fieldMessage));
      && (t.showNotActiveModal <==> e.NotActive? || s.showNotActiveModal)
      && (t.showLoginModal <==> !e.NotActive? && s.showLoginModal)
      && (t.isActive <==> !e.NotActive? && s.isActive)
      && (t.passError <==> e.InvalidPassword? || s.passError)
      && t.emailError == (if e.InvalidEmail? then Flagged else s.emailError)
      && t.(emailError := s.emailError, isActive := s.isActive, passError := s.passError,
            showLoginModal := s.showLoginModal, showNotActiveModal := s.showNotActiveModal) == s
  {
    var m := ShownMessage(BodyOf(e, fieldMessage));
    match e
    case InvalidFields(u, p) =>
      assert m == None || m == Some(fieldMessage) || m == Some("L");
      assert LoginRefused(s, BodyOf(e, fieldMessage)) == s;
    case InvalidEmail =>
      assert m == Some("Invalid email");
      assert LoginRefused(s, BodyOf(e, fieldMessage)) == s.(emailError := Flagged);
    case NotActive =>
      assert m == Some("Not active.");
      assert LoginRefused(s, BodyOf(e, fieldMessage)) == s.(isActive := false, showLoginModal := false, showNotActiveModal := true);
    case InvalidPassword =>
      assert m == Some("Invalid password");
      assert LoginRefused(s, BodyOf(e, fieldMessage)) == s.(passError := true);
  }

  /** A refusal without any of the three keys changes nothing: the fallback text
      'Login failed.' is never shown. */
  lemma FallbackShowsNothing(s: NavbarState)
    ensures LoginRefused(s, ErrorBody(None, None, None)) == s
  {
  }

  // ---------------------------------------------------------------- registration request

  /** The JSON body `handleRegister` sends. */
  datatype RegisterRequest = RegisterRequest(
    email: string,
    password: string,
    fullName: string,
    isJournalist: bool,
    typeOfEmployment: Option<string>,
    organizationName: Option<string>)

  /** `handleRegister`'s body from the form and the values of the dialog's inputs. */
  function RegisterPayload(form: FormData, fullName: string, checked: bool, employment: string, organization: string): (r: RegisterRequest)
    ensures r.email == form.email && r.password == form.password
    ensures r.typeOfEmployment.Some? <==> checked
    ensures r.typeOfEmployment.Some? ==> r.typeOfEmployment.value == employment
    ensures r.organizationName.Some? <==> checked && employment == "employed"
    ensures r.organizationName.Some? ==> r.organizationName.value == organization
  {
    var employmentField := if checked then Some(employment) else None;
    var organizationField := if checked && employmentField == Some("employed") then Some(organization) else None;
    RegisterRequest(form.email, form.password, fullName, checked, employmentField, organizationField)
  }

  /** The profile fields the registration endpoint reads from that body. The journalist
      flag is always sent, so the endpoint never fails on a null `is_journalist` for a
      request from this form. */
  function RequestFields(r: RegisterRequest): (f: Accounts.ProfileFields)
    ensures f.isJournalist == Some(r.isJournalist)
    ensures f.typeOfEmployment == r.typeOfEmployment && f.organizationName == r.organizationName
  {
    Accounts.ProfileFields(Some(r.fullName), Some(r.isJournalist), r.typeOfEmployment, r.organizationName)
  }

  // ---------------------------------------------------------------- the component

  class NavbarComponent {
    var formData: FormData
    var registerStep: int
    var emailValidation: bool
    var emailError: EmailError
    var passwordCriteriaMet: bool
    var passwordCriteriaError: string
    var passwordsMatch: bool
    var passwordMatchError: string
    var isActive: bool
    var passError: bool
    var showLoginModal: bool
    var showNotActiveModal: bool

    function Snapshot(): NavbarState
      reads this
    {
      NavbarState(formData, registerStep, emailValidation, emailError, passwordCriteriaMet, passwordCriteriaError,
                  passwordsMatch, passwordMatchError, isActive, passError, showLoginModal, showNotActiveModal)
    }

    constructor ()
      ensures Snapshot() == Initial()
    {
      formData := FormData("", "", "");
      registerStep := 1;
      emailValidation := true;
      emailError := Message("");
      passwordCriteriaMet := false;
      passwordCriteriaError := "";
      passwordsMatch := true;
      passwordMatchError := "";
      isActive := true;
      passError := false;
      showLoginModal := false;
      showNotActiveModal := false;
    }

    /** `validateEmail` on the rendered address. */
    method ValidateEmailOf(rendered: string)
      modifies this
      ensures Snapshot() == EmailChecked(old(Snapshot()), rendered)
    {
      var c := ValidateEmail(rendered);
      emailValidation := c.ok;
      emailError := Message(c.error);
    }

    /** `validatePasswordCriteria` on the rendered password. */
    method ValidateCriteriaOf(rendered: string)
      modifies this
      ensures Snapshot() == CriteriaChecked(old(Snapshot()), rendered)
    {
      var c := ValidatePasswordCriteria(rendered);
      passwordCriteriaMet := c.ok;
      passwordCriteriaError := c.error;
    }

    /** `validatePasswordsMatch(password, confirmation)`. */
    method ValidateMatchOf(password: Option<string>, confirmation: Option<string>)
      modifies this
      ensures Snapshot() == MatchChecked(old(Snapshot()), password, confirmation)
    {
      var c := ValidatePasswordsMatch(password, confirmation);
      passwordsMatch := c.ok;
      passwordMatchError := c.error;
    }

    method HandleEmailChange(value: string)
      modifies this
      ensures Snapshot() == EmailChanged(old(Snapshot()), value)
    {
      var rendered := formData;
      formData := rendered.(email := value);
      ValidateEmailOf(rendered.email);
    }

    method HandlePasswordChange(newPass: string)
      modifies this
      ensures Snapshot() == PasswordChanged(old(Snapshot()), newPass)
    {
      var rendered := formData;
      formData := rendered.(password := newPass);
      ValidateCriteriaOf(rendered.password);
      if rendered.confirmationPassword != "" {
        ValidateMatchOf(Some(newPass), Some(rendered.confirmationPassword));
      }
    }

    method HandleConfirmationPasswordChange(value: string)
      modifies this
      ensures Snapshot() == ConfirmationChanged(old(Snapshot()), value)
    {
      var rendered := formData;
      formData := rendered.(confirmationPassword := value);
      ValidateMatchOf(Some(rendered.password), Some(value));
    }

    method HandleRegisterStepNext()
      modifies this
      ensures Snapshot() == StepNext(old(Snapshot()))
    {
      if registerStep == 1 {
        var rendered := Snapshot();
        ValidateEmailOf(rendered.formData.email);
        ValidateCriteriaOf(rendered.formData.password);
        ValidateMatchOf(None, None);
        if rendered.emailValidation && rendered.passwordCriteriaMet && rendered.passwordsMatch {
          registerStep := rendered.registerStep + 1;
        }
      } else {
        registerStep := registerStep + 1;
      }
    }

    method HandleRegisterStepPrevious()
      modifies this
      ensures Snapshot() == StepPrevious(old(Snapshot()))
    {
      registerStep := 1;
    }

    method HandleLoginRefused(body: ErrorBody)
      modifies this
      ensures Snapshot() == LoginRefused(old(Snapshot()), body)
    {
      var m := ShownMessage(body);
      if m == Some("Invalid email") {
        emailError := Flagged;
      }
      if m == Some("Not active.") {
        isActive := false;
        showLoginModal := false;
        showNotActiveModal := true;
      }
      if m == Some("Invalid password") {
        passError := true;
      }
    }
  }
}
