/** The account handlers of accounts/views.py over Django's `User` table and the
    `UserProfile` table of backend/accounts/models.py, both keyed by the user's id.
    Password hashing is left out: a user record holds the password it accepts, or
    `None` for the unusable password `create_user` sets when none is given. */
module Accounts {
  import opened Common

  datatype User = User(username: string, email: string, password: Option<string>, isActive: bool)

  /** A `UserProfile` row; `is_journalist` is the one column that cannot be null. */
  datatype Profile = Profile(
    fullName: Option<string>,
    isJournalist: bool,
    typeOfEmployment: Option<string>,
    organizationName: Option<string>,
    betaAuthenticated: bool)

  /** The fields a handler reads with `request.data.get(...)`: `None` when absent. */
  datatype ProfileFields = ProfileFields(
    fullName: Option<string>,
    isJournalist: Option<bool>,
    typeOfEmployment: Option<string>,
    organizationName: Option<string>)

  // ---------------------------------------------------------------- the database

  /** The engine the settings choose: SQLite in backend/factualweb/settings/dev.py,
      PostgreSQL in backend/factualweb/settings/prod.py. */
  datatype Database = Sqlite | Postgres

  /** The declared lengths of the `varchar` columns the handlers write: Django's
      `User.username` and `User.email`, and the `UserProfile` text fields. */
  const UsernameLength: nat := 150
  const EmailLength: nat := 254
  const ProfileFieldLength: nat := 255

  /** The PostgreSQL driver refuses any string holding a NUL character, before the
      statement reaches the server, whether the string is stored or only compared. */
  predicate QueryRefused(db: Database, s: string)
  {
    db.Postgres? && '\0' in s
  }

  /** Whether `s` can be written into a `varchar(n)` column: PostgreSQL refuses a value
      longer than `n` characters, SQLite ignores the declared length. */
  predicate Stores(db: Database, s: string, n: nat)
  {
    !QueryRefused(db, s) && (db.Sqlite? || |s| <= n)
  }

  /** A nullable column takes `None` as NULL. */
  predicate StoresOption(db: Database, o: Option<string>, n: nat)
  {
    o.None? || Stores(db, o.value, n)
  }

  /** Whether a `User` row with this username and email can be written. */
  predicate StoresUser(db: Database, username: string, email: string)
  {
    Stores(db, username, UsernameLength) && Stores(db, email, EmailLength)
  }

  /** Whether the three text fields of a `UserProfile` row can be written. */
  predicate StoresProfile(db: Database, fields: ProfileFields)
  {
    && StoresOption(db, fields.fullName, ProfileFieldLength)
    && StoresOption(db, fields.typeOfEmployment, ProfileFieldLength)
    && StoresOption(db, fields.organizationName, ProfileFieldLength)
  }

  /** The database's unique constraint on `username`. */
  ghost predicate UniqueUsernames(users: map<nat, User>)
  {
    forall i, j :: i in users && j in users && users[i].username == users[j].username ==> i == j
  }

  predicate HasUsername(users: map<nat, User>, name: string)
  {
    exists id :: id in users && users[id].username == name
  }

  /** `authenticate(username=..., password=...)` with Django's model backend: a user
      with that username, that password, and active. */
  predicate Authenticates(users: map<nat, User>, name: string, password: string)
  {
    exists id :: id in users && users[id].username == name && users[id].password == Some(password) && users[id].isActive
  }

  // ---------------------------------------------------------------- email normalisation

  /** The index of the last `@` in `s`, or -1. */
  function LastAt(s: string): (k: int)
    ensures -1 <= k < |s|
    ensures k >= 0 ==> s[k] == '@' && forall i :: k < i < |s| ==> s[i] != '@'
    ensures k < 0 ==> forall i :: 0 <= i < |s| ==> s[i] != '@'
  {
    if s == [] then -1
    else if s[|s| - 1] == '@' then |s| - 1
    else LastAt(s[..|s| - 1])
  }

  /** `BaseUserManager.normalize_email`: the stripped address with the part after its
      last `@` lowercased; an address without `@` is kept as it was given. */
  function NormalizeEmail(email: string): string
  {
    var t := Strip(email);
    var k := LastAt(t);
    if k < 0 then email else t[..k] + "@" + Lower(t[k + 1..])
  }

  /** Lowercasing a string without upper-case ASCII letters changes nothing. */
  lemma LowerOfLower(s: string)
    requires forall i :: 0 <= i < |s| ==> !IsAsciiUpper(s[i])
    ensures Lower(s) == s
  {
    assert forall i :: 0 <= i < |s| ==> Lower(s)[i] == s[i];
  }

  /** Normalising an address that is its own strip and has an `@` at `k` and none
      after it. */
  lemma NormalizeAt(email: string, k: nat)
    requires Strip(email) == email
    requires k < |email| && email[k] == '@'
    requires forall i :: k < i < |email| ==> email[i] != '@'
    ensures NormalizeEmail(email) == email[..k] + "@" + Lower(email[k + 1..])
  {
    assert LastAt(email) == k;
  }

  /** An address `local@domain` without surrounding whitespace and without `@` in the
      domain is stored with its domain lowercased, so it is stored exactly as given
      if and only if the domain has no upper-case ASCII letter: `Ann@Example.com`
      is registered under that username and the email `Ann@example.com`. */
  lemma NormalizeEmailLowersDomain(local: string, domain: string)
    requires local != [] ==> !IsPyWhitespace(local[0])
    requires domain != [] ==> !IsPyWhitespace(domain[|domain| - 1])
    requires forall i :: 0 <= i < |domain| ==> domain[i] != '@'
    ensures NormalizeEmail(local + "@" + domain) == local + "@" + Lower(domain)
    ensures NormalizeEmail(local + "@" + domain) == local + "@" + domain <==>
      forall i :: 0 <= i < |domain| ==> !IsAsciiUpper(domain[i])
  {
    var e := local + "@" + domain;
    var k := |local|;
    assert e[k] == '@';
    assert forall i :: k < i < |e| ==> e[i] == domain[i - k - 1];
    assert e[0] == (if local != [] then local[0] else '@');
    assert e[|e| - 1] == (if domain != [] then domain[|domain| - 1] else '@');
    StripUnchanged(e);
    NormalizeAt(e, k);
    assert e[..k] == local && e[k + 1..] == domain;
    if forall i :: 0 <= i < |domain| ==> !IsAsciiUpper(domain[i]) {
      LowerOfLower(domain);
    } else {
      var i :| 0 <= i < |domain| && IsAsciiUpper(domain[i]);
      assert Lower(domain)[i] != domain[i];
      var stored := local + "@" + Lower(domain);
      assert stored[k + 1..] == Lower(domain);
    }
  }

  /** Lowercasing the part after an `@` keeps the length and brings in no NUL. */
  lemma LowerDomainWithin(t: string, k: nat)
    requires k < |t|
    ensures |t[..k] + "@" + Lower(t[k + 1..])| == |t|
    ensures '\0' in t[..k] + "@" + Lower(t[k + 1..]) ==> '\0' in t
  {
    var r := t[..k] + "@" + Lower(t[k + 1..]);
    if '\0' in r {
      var p :| 0 <= p < |r| && r[p] == '\0';
      if p > k {
        assert r[p] == Lower(t[k + 1..])[p - k - 1];
      }
      assert t[p] == '\0';
    }
  }

  /** Normalising never lengthens an address and never brings in a NUL character:
      the result is the stripped slice with one part lowercased. */
  lemma NormalizedEmailWithin(email: string)
    ensures |NormalizeEmail(email)| <= |email|
    ensures '\0' in NormalizeEmail(email) ==> '\0' in email
  {
    StripIsTrimmedSlice(email);
    var t := Strip(email);
    var k := LastAt(t);
    if k >= 0 {
      LowerDomainWithin(t, k);
      var i, j :| 0 <= i <= j <= |email| && t == email[i..j];
      if '\0' in t {
        var p :| 0 <= p < |t| && t[p] == '\0';
        assert email[i + p] == '\0';
      }
    }
  }

  /** On PostgreSQL, `create_user` can write the user exactly when the address is at
      most 150 characters long and holds no NUL: the normalised copy in the 254-character
      `email` column never fails where the username did not. */
  lemma PostgresStoresUserExactly(email: string)
    ensures StoresUser(Postgres, email, NormalizeEmail(email)) <==> |email| <= UsernameLength && '\0' !in email
  {
    NormalizedEmailWithin(email);
  }

  // ---------------------------------------------------------------- login

  /** The validation errors `LoginAPI.post` raises: the serializer's own, naming the
      fields that are missing, blank or too long, then the ones the handler raises
      under the keys `username` ('Invalid email'), `user_active_status` ('Not active.')
      and `password` ('Invalid password'). */
  datatype LoginError = InvalidFields(username: bool, password: bool) | InvalidEmail | NotActive | InvalidPassword

  /** A `CharField` of `LoginSerializer`: present, not blank once stripped, no longer
      than `maxLength` once stripped (`None` for no limit), and free of the NUL
      character, which the field's null-character validator refuses. */
  predicate FieldValid(value: Option<string>, maxLength: Option<nat>)
  {
    && value.Some? && Strip(value.value) != ""
    && (maxLength.None? || |Strip(value.value)| <= maxLength.value)
    && '\0' !in Strip(value.value)
  }

  /** What `LoginAPI.post` answers: the user, with refresh and access tokens, or the
      first error in the order the handler checks. */
  ghost function LoginOutcome(users: map<nat, User>, username: Option<string>, password: Option<string>): Result<User, LoginError>
    requires UniqueUsernames(users)
  {
    if !FieldValid(username, Some(30)) || !FieldValid(password, None) then
      Err(InvalidFields(!FieldValid(username, Some(30)), !FieldValid(password, None)))
    else
      var name := Strip(username.value);
      if !HasUsername(users, name) then Err(InvalidEmail)
      else
        var id :| id in users && users[id].username == name;
        if !users[id].isActive then Err(NotActive)
        else if !Authenticates(users, name, Strip(password.value)) then Err(InvalidPassword)
        else Ok(users[id])
  }

  /** An inactive account is answered `Not active.` whatever password is given, right
      or wrong, unless the serializer refuses a NUL character first. */
  lemma InactiveIsNotActive(users: map<nat, User>, id: nat, password: string)
    requires UniqueUsernames(users)
    requires id in users && !users[id].isActive
    requires Strip(users[id].username) == users[id].username && 0 < |users[id].username| <= 30
    requires Strip(password) != ""
    ensures var name := users[id].username;
      LoginOutcome(users, Some(name), Some(password)) ==
        if '\0' in name || '\0' in Strip(password) then Err(InvalidFields('\0' in name, '\0' in Strip(password)))
        else Err(NotActive)
  {
  }

  /** The handler's own errors, in its order: an unknown username is 'Invalid email',
      and a known active user whose password does not match is 'Invalid password'. */
  lemma LoginErrorPrecedence(users: map<nat, User>, username: string, password: string)
    requires UniqueUsernames(users)
    requires FieldValid(Some(username), Some(30)) && FieldValid(Some(password), None)
    ensures !HasUsername(users, Strip(username)) ==>
      LoginOutcome(users, Some(username), Some(password)) == Err(InvalidEmail)
    ensures ((exists id :: id in users && users[id].username == Strip(username) && users[id].isActive)
             && !Authenticates(users, Strip(username), Strip(password))) ==>
      LoginOutcome(users, Some(username), Some(password)) == Err(InvalidPassword)
  {
  }

  /** A successful login is by an active user whose username is the stripped username
      given and whose password is the stripped password given; and such a user with a
      valid request is let in. */
  lemma LoginSucceedsExactly(users: map<nat, User>, username: Option<string>, password: Option<string>)
    requires UniqueUsernames(users)
    ensures LoginOutcome(users, username, password).Ok? <==>
      && FieldValid(username, Some(30)) && FieldValid(password, None)
      && Authenticates(users, Strip(username.value), Strip(password.value))
    ensures LoginOutcome(users, username, password).Ok? ==>
      var u := LoginOutcome(users, username, password).value;
      u.isActive && u.username == Strip(username.value) && u.password == Some(Strip(password.value))
  {
    if FieldValid(username, Some(30)) && FieldValid(password, None) {
      var name := Strip(username.value);
      if Authenticates(users, name, Strip(password.value)) {
        var a :| a in users && users[a].username == name && users[a].password == Some(Strip(password.value)) && users[a].isActive;
        assert HasUsername(users, name);
      }
    }
  }

  // ---------------------------------------------------------------- replies

  /** The answers of `RegistrationView.post`: 201, or 400 with the exception raised by
      `create_user` (no username, a username or email the database cannot store, or a
      username already taken) or by the profile insert (a text field the database
      cannot store, or a null `is_journalist`), the last two after the user has been
      saved. */
  datatype RegisterReply =
    Registered(id: nat) | UsernameNotSet | UserNotStored | UsernameTaken | ProfileNotStored | JournalistNull

  /** The answers of `UserProfileUpdateAPIView.put`: 200, or 400 when the user has no
      profile, a text field cannot be stored or `is_journalist` is null. */
  datatype ProfileReply = ProfileSaved | NoProfile | ProfileFieldsNotStored | ProfileJournalistNull

  /** The answers of `UpdateEmailView.put`: 200; 400 without an email or when another
      user has it; 500 when the database cannot take the address or another user has it
      as username, since neither the driver's error nor the save's `IntegrityError` is
      the `ValidationError` the handler catches. */
  datatype EmailReply = EmailUpdated | EmailRequired | EmailInUse | EmailNotStored | UsernameClash
  {
    function Status(): nat
    {
      match this
      case EmailUpdated => 200
      case EmailRequired => 400
      case EmailInUse => 400
      case EmailNotStored => 500
      case UsernameClash => 500
    }
  }

  /** The answers of `ChangePasswordView.put`: 200; 400 with a field missing or a wrong
      old password; 500 when the password validators reject the new password, since
      their `ValidationError` is not the one the handler catches. */
  datatype PasswordReply = PasswordUpdated | PasswordsRequired | IncorrectOldPassword | PasswordRejected
  {
    function Status(): nat
    {
      match this
      case PasswordUpdated => 200
      case PasswordsRequired => 400
      case IncorrectOldPassword => 400
      case PasswordRejected => 500
    }
  }

  // ---------------------------------------------------------------- the store

  class AccountStore {
    var users: map<nat, User>
    var profiles: map<nat, Profile>
    var nextId: nat

    ghost predicate Valid()
      reads this
    {
      && (forall id :: id in users ==> id < nextId)
      && (forall id :: id in profiles ==> id in users)
      && UniqueUsernames(users)
    }

    constructor ()
      ensures Valid() && users == map[] && profiles == map[]
    {
      users := map[];
      profiles := map[];
      nextId := 0;
    }

    /** `RegistrationView.post` against the database `db`. */
    method Register(db: Database, email: Option<string>, password: Option<string>, fields: ProfileFields)
      returns (reply: RegisterReply)
      requires Valid()
      modifies this
      ensures Valid()
      ensures email.None? || email.value == "" ==>
        reply == UsernameNotSet && users == old(users) && profiles == old(profiles)
      ensures email.Some? && email.value != "" && !StoresUser(db, email.value, NormalizeEmail(email.value)) ==>
        reply == UserNotStored && users == old(users) && profiles == old(profiles)
      ensures email.Some? && email.value != "" && StoresUser(db, email.value, NormalizeEmail(email.value))
              && HasUsername(old(users), email.value) ==>
        reply == UsernameTaken && users == old(users) && profiles == old(profiles)
      ensures email.Some? && email.value != "" && StoresUser(db, email.value, NormalizeEmail(email.value))
              && !HasUsername(old(users), email.value) ==>
        var id := old(nextId);
        && id !in old(users)
        && users == old(users)[id := User(email.value, NormalizeEmail(email.value), password, false)]
        && (!StoresProfile(db, fields) ==> reply == ProfileNotStored && profiles == old(profiles))
        && (StoresProfile(db, fields) && fields.isJournalist.None? ==>
              reply == JournalistNull && profiles == old(profiles))
        && (StoresProfile(db, fields) && fields.isJournalist.Some? ==>
              && reply == Registered(id)
              && profiles == old(profiles)[id := Profile(fields.fullName, fields.isJournalist.value,
                                                         fields.typeOfEmployment, fields.organizationName, false)])
    {
      if email.None? || email.value == "" {
        return UsernameNotSet;
      }
      if !StoresUser(db, email.value, NormalizeEmail(email.value)) {
        return UserNotStored;
      }
      if exists id :: id in users && users[id].username == email.value {
        return UsernameTaken;
      }
      var id := nextId;
      users := users[id := User(email.value, NormalizeEmail(email.value), password, false)];
      nextId := nextId + 1;
      if !StoresProfile(db, fields) {
        return ProfileNotStored;
      }
      if fields.isJournalist.None? {
        return JournalistNull;
      }
      profiles := profiles[id := Profile(fields.fullName, fields.isJournalist.value,
                                         fields.typeOfEmployment, fields.organizationName, false)];
      return Registered(id);
    }

    /** `LoginAPI.post`; it changes nothing. */
    method Login(username: Option<string>, password: Option<string>) returns (r: Result<User, LoginError>)
      requires Valid()
      ensures r == LoginOutcome(users, username, password)
    {
      if !FieldValid(username, Some(30)) || !FieldValid(password, None) {
        return Err(InvalidFields(!FieldValid(username, Some(30)), !FieldValid(password, None)));
      }
      var name := Strip(username.value);
      if !exists id :: id in users && users[id].username == name {
        return Err(InvalidEmail);
      }
      var id :| id in users && users[id].username == name;
      if !users[id].isActive {
        return Err(NotActive);
      }
      if !Authenticates(users, name, Strip(password.value)) {
        return Err(InvalidPassword);
      }
      return Ok(users[id]);
    }

    /** `UserProfileUpdateAPIView.put` for the user `uid` against the database `db`:
        all four fields are replaced by the request's, absent ones by null. */
    method UpdateProfile(db: Database, uid: nat, fields: ProfileFields) returns (reply: ProfileReply)
      requires Valid() && uid in users
      modifies this
      ensures Valid() && users == old(users)
      ensures uid !in old(profiles) ==> reply == NoProfile && profiles == old(profiles)
      ensures uid in old(profiles) && !StoresProfile(db, fields) ==>
        reply == ProfileFieldsNotStored && profiles == old(profiles)
      ensures uid in old(profiles) && StoresProfile(db, fields) && fields.isJournalist.None? ==>
        reply == ProfileJournalistNull && profiles == old(profiles)
      ensures uid in old(profiles) && StoresProfile(db, fields) && fields.isJournalist.Some? ==>
        && reply == ProfileSaved
        && profiles == old(profiles)[uid := Profile(fields.fullName, fields.isJournalist.value,
             fields.typeOfEmployment, fields.organizationName, old(profiles)[uid].betaAuthenticated)]
    {
      if uid !in profiles {
        return NoProfile;
      }
      if !StoresProfile(db, fields) {
        return ProfileFieldsNotStored;
      }
      if fields.isJournalist.None? {
        return ProfileJournalistNull;
      }
      var p := profiles[uid];
      profiles := profiles[uid := Profile(fields.fullName, fields.isJournalist.value,
                                          fields.typeOfEmployment, fields.organizationName, p.betaAuthenticated)];
      return ProfileSaved;
    }

    /** `UpdateEmailView.put` for the user `uid` against the database `db`. The lookup
        of the address already goes to the database, so the driver's NUL refusal comes
        before the in-use test; the column lengths are checked by the save. */
    method UpdateEmail(db: Database, uid: nat, newEmail: Option<string>) returns (reply: EmailReply)
      requires Valid() && uid in users
      modifies this
      ensures Valid() && profiles == old(profiles)
      ensures reply != EmailUpdated ==> users == old(users)
      ensures newEmail.None? || newEmail.value == "" ==> reply == EmailRequired
      ensures newEmail.Some? && newEmail.value != "" ==> reply != EmailRequired
      ensures newEmail.Some? && newEmail.value != "" ==>
        && (reply == EmailInUse <==>
              && !QueryRefused(db, newEmail.value)
              && exists id :: id in old(users) && old(users)[id].email == newEmail.value
                              && old(users)[id].username != old(users)[uid].username)
        && (reply == EmailNotStored <==>
              reply != EmailInUse && !StoresUser(db, newEmail.value, newEmail.value))
        && (reply == EmailUpdated ==>
              users == old(users)[uid := old(users)[uid].(email := newEmail.value, username := newEmail.value)])
        && (reply == UsernameClash <==>
              (reply != EmailInUse && reply != EmailNotStored &&
               exists id :: id in old(users) && id != uid && old(users)[id].username == newEmail.value))
    {
      if newEmail.None? || newEmail.value == "" {
        return EmailRequired;
      }
      var e := newEmail.value;
      if QueryRefused(db, e) {
        return EmailNotStored;
      }
      var current := users[uid];
      if exists id :: id in users && users[id].email == e && users[id].username != current.username {
        return EmailInUse;
      }
      if !StoresUser(db, e, e) {
        return EmailNotStored;
      }
      if exists id :: id in users && id != uid && users[id].username == e {
        return UsernameClash;
      }
      users := users[uid := current.(email := e, username := e)];
      return EmailUpdated;
    }

    /** `ChangePasswordView.put` for the user `uid`; `acceptable` stands for Django's
        password validators. */
    method ChangePassword(uid: nat, oldPassword: Option<string>, newPassword: Option<string>,
                          acceptable: string -> bool)
      returns (reply: PasswordReply)
      requires Valid() && uid in users
      modifies this
      ensures Valid() && profiles == old(profiles)
      ensures reply != PasswordUpdated ==> users == old(users)
      ensures oldPassword.None? || newPassword.None? ==> reply == PasswordsRequired
      ensures oldPassword.Some? && newPassword.Some? ==> reply != PasswordsRequired
      ensures oldPassword.Some? && newPassword.Some? ==>
        && (reply == IncorrectOldPassword <==>
              !(old(users)[uid].password == oldPassword && old(users)[uid].isActive))
        && (reply == PasswordRejected <==> reply != IncorrectOldPassword && !acceptable(newPassword.value))
        && (reply == PasswordUpdated ==> users == old(users)[uid := old(users)[uid].(password := newPassword)])
    {
      if oldPassword.None? || newPassword.None? {
        return PasswordsRequired;
      }
      var user := users[uid];
      if !Authenticates(users, user.username, oldPassword.value) {
        return IncorrectOldPassword;
      }
      if !acceptable(newPassword.value) {
        return PasswordRejected;
      }
      users := users[uid := user.(password := newPassword)];
      return PasswordUpdated;
    }
  }

  // ---------------------------------------------------------------- across handlers

  /** A freshly registered account cannot log in: it is inactive, so the answer is
      `Not active.` even with the right password, or a serializer error for a NUL
      character. */
  lemma RegisteredCannotLogIn(users: map<nat, User>, id: nat, email: string, password: Option<string>, given: string)
    requires UniqueUsernames(users)
    requires id in users && users[id] == User(email, NormalizeEmail(email), password, false)
    requires Strip(email) == email && 0 < |email| <= 30
    requires Strip(given) != ""
    ensures LoginOutcome(users, Some(email), Some(given)).Err?
    ensures '\0' !in email && '\0' !in Strip(given) ==> LoginOutcome(users, Some(email), Some(given)) == Err(NotActive)
  {
    InactiveIsNotActive(users, id, given);
  }

  /** After a password change, an active user logs in with the new password, given
      without surrounding whitespace, exactly when neither it nor the username holds a
      NUL character, and no longer logs in with a different one. */
  lemma NewPasswordLogsIn(users: map<nat, User>, uid: nat, newPassword: string, other: string)
    requires UniqueUsernames(users)
    requires uid in users && users[uid].isActive
    requires Strip(users[uid].username) == users[uid].username && 0 < |users[uid].username| <= 30
    requires Strip(newPassword) == newPassword && newPassword != ""
    requires Strip(other) != "" && Strip(other) != newPassword
    ensures var changed := users[uid := users[uid].(password := Some(newPassword))];
      var name := users[uid].username;
      && (LoginOutcome(changed, Some(name), Some(newPassword)).Ok? <==> '\0' !in name && '\0' !in newPassword)
      && ('\0' !in name && '\0' !in Strip(other) ==>
            LoginOutcome(changed, Some(name), Some(other)) == Err(InvalidPassword))
      && !LoginOutcome(changed, Some(name), Some(other)).Ok?
  {
    var changed := users[uid := users[uid].(password := Some(newPassword))];
    var name := users[uid].username;
    assert UniqueUsernames(changed);
    LoginSucceedsExactly(changed, Some(name), Some(newPassword));
    assert changed[uid].username == name;
    LoginSucceedsExactly(changed, Some(name), Some(other));
  }
}
