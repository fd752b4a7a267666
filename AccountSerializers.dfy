/** The registration and login checks of src/accounts/api/v1/serializers.py.
    Password strength and authentication are parameters: `validatePassword`
    yields the messages of the configured validators (none when the password
    is accepted), and `authenticate` yields the user whose credentials match,
    if any. The field-level checks that run before `validate` are not part of
    this model. */
module AccountSerializers {
  import opened Common
  import opened Accounts
  import Database

  // ---------------------------------------------------------------------------
  // Registration

  /** The validated fields of `RegisterUserSerializer`. */
  datatype RegisterData = RegisterData(
    email: string,
    firstName: string,
    lastName: string,
    password: string,
    confirmPassword: string)

  datatype RegisterError =
    | PasswordsDoNotMatch               // {"detail": "Passwords do not match."}
    | WeakPassword(messages: seq<string>)  // {"password": [the validators' messages]}

  /** `RegisterUserSerializer.validate`: the two passwords must be equal, which
      is checked first; then the password must pass the password validators.
      Accepted data is returned unchanged. */
  function ValidateRegistration(attrs: RegisterData, validatePassword: string -> seq<string>)
    : (r: Result<RegisterData, RegisterError>)
    ensures r.Ok? <==> attrs.password == attrs.confirmPassword && validatePassword(attrs.password) == []
    ensures r.Ok? ==> r.value == attrs
    ensures attrs.password != attrs.confirmPassword ==> r == Err(PasswordsDoNotMatch)
    ensures r.Err? && r.error.WeakPassword? ==>
      attrs.password == attrs.confirmPassword && r.error.messages == validatePassword(attrs.password)
  {
    if attrs.password != attrs.confirmPassword then Err(PasswordsDoNotMatch)
    else
      var messages := validatePassword(attrs.password);
      if messages != [] then Err(WeakPassword(messages)) else Ok(attrs)
  }

  /** Strength messages are reported only for matching passwords: with a
      mismatch the outcome is the same whatever the validators say. */
  lemma MismatchHidesStrength(attrs: RegisterData, v1: string -> seq<string>, v2: string -> seq<string>)
    requires attrs.password != attrs.confirmPassword
    ensures ValidateRegistration(attrs, v1) == ValidateRegistration(attrs, v2) == Err(PasswordsDoNotMatch)
  {
  }

  /** Equal passwords are accepted exactly when the validators report nothing,
      and their messages are reported as they are. */
  lemma MatchingPasswords(attrs: RegisterData, validatePassword: string -> seq<string>)
    requires attrs.password == attrs.confirmPassword
    ensures validatePassword(attrs.password) == [] ==> ValidateRegistration(attrs, validatePassword) == Ok(attrs)
    ensures validatePassword(attrs.password) != [] ==>
      ValidateRegistration(attrs, validatePassword) == Err(WeakPassword(validatePassword(attrs.password)))
  {
  }

  /** `RegisterUserSerializer.create`: the confirmation is dropped and the rest
      goes to `create_user` with no extra fields, which also gives the new
      user its profile; the stored user does not depend on the confirmation. */
  method Register(db: Database.Database, data: RegisterData) returns (r: Result<UserId, AccountError>)
    requires db.Valid()
    modifies db`users, db`profiles, db`nextId
    ensures db.Valid()
    ensures r.Err? ==> db.users == old(db.users) && db.profiles == old(db.profiles) && db.nextId == old(db.nextId)
    ensures r == Err(MissingEmail) <==> data.email == ""
    ensures r == Err(FieldTooLong) <==>
      data.email != "" && !FieldsFit(db.normalizeEmail(data.email), data.firstName, data.lastName)
    ensures r == Err(EmailTaken) <==>
      && data.email != "" && FieldsFit(db.normalizeEmail(data.email), data.firstName, data.lastName)
      && exists k :: k in old(db.users) && old(db.users)[k].email == db.normalizeEmail(data.email)
    ensures r.Err? ==> r.error == MissingEmail || r.error == FieldTooLong || r.error == EmailTaken
    ensures r.Ok? ==>
      && r.value !in old(db.users)
      && db.users == old(db.users)[r.value := Registered(data, db.normalizeEmail)]
    ensures r.Ok? ==>
      && |db.ProfilesOf(r.value)| == 1
      && exists p: ProfileId :: p !in old(db.profiles) && db.profiles == old(db.profiles)[p := Profile(r.value, "")]
  {
    r := db.CreateUser(data.email, data.firstName, data.lastName, data.password, map[]);
  }

  /** The user `create` stores for `data`: a plain user with the normalised
      e-mail, the names and the hashed password. */
  function Registered(data: RegisterData, normalizeEmail: string -> string): (u: User)
    ensures u.email == normalizeEmail(data.email)
    ensures u.firstName == data.firstName && u.lastName == data.lastName
    ensures CheckPassword(u.password, data.password)
    ensures !u.isSuperuser && !u.isStaff && u.isActive && !u.isVerified
  {
    PlainUserDefaults(normalizeEmail(data.email), data.firstName, data.lastName, data.password);
    NewUser(normalizeEmail(data.email), data.firstName, data.lastName, data.password, map[])
  }

  /** Two registrations that differ only in the confirmation store the same user. */
  lemma ConfirmationDropped(data: RegisterData, confirm: string, normalizeEmail: string -> string)
    ensures Registered(data.(confirmPassword := confirm), normalizeEmail) == Registered(data, normalizeEmail)
  {
  }

  // ---------------------------------------------------------------------------
  // Login

  /** A value of the serializer's attribute dictionary. */
  datatype AttrValue = Text(text: string) | UserRef(id: UserId)

  datatype LoginError =
    | MustInclude     // 'Must include "username" and "password".'
    | UnableToLogIn   // "Unable to log in with provided credentials."

  /** `attrs.get(key)` is truthy: present and not empty. */
  predicate Present(attrs: map<string, string>, key: string)
  {
    key in attrs && attrs[key] != ""
  }

  /** `CustomAuthTokenSerializer.validate`: both the e-mail and the password
      must be given; the credentials must authenticate a user; then the
      attributes are returned with that user added under "user". */
  function ValidateLogin(attrs: map<string, string>, authenticate: (string, string) -> Option<UserId>)
    : (r: Result<map<string, AttrValue>, LoginError>)
    ensures !(Present(attrs, "email") && Present(attrs, "password")) ==> r == Err(MustInclude)
    ensures Present(attrs, "email") && Present(attrs, "password") ==>
      var found := authenticate(attrs["email"], attrs["password"]);
      && (found.None? ==> r == Err(UnableToLogIn))
      && (found.Some? ==> r.Ok? && "user" in r.value && r.value["user"] == UserRef(found.value))
    ensures r.Ok? ==> r.value.Keys == attrs.Keys + {"user"}
    ensures r.Ok? ==> forall k :: k in attrs && k != "user" ==> r.value[k] == Text(attrs[k])
  {
    if Present(attrs, "email") && Present(attrs, "password") then
      match authenticate(attrs["email"], attrs["password"])
      case None => Err(UnableToLogIn)
      case Some(user) => Ok((map k | k in attrs :: Text(attrs[k]))["user" := UserRef(user)])
    else Err(MustInclude)
  }

  /** A login succeeds exactly when both credentials are given and authenticate
      a user, and then the user is the one they authenticate. */
  lemma LoginSucceedsIff(attrs: map<string, string>, authenticate: (string, string) -> Option<UserId>)
    ensures ValidateLogin(attrs, authenticate).Ok? <==>
      Present(attrs, "email") && Present(attrs, "password") && authenticate(attrs["email"], attrs["password"]).Some?
    ensures ValidateLogin(attrs, authenticate).Ok? ==>
      ValidateLogin(attrs, authenticate).value["user"] == UserRef(authenticate(attrs["email"], attrs["password"]).value)
  {
  }
}
