/** The account records of src/accounts/models.py: users with their flags and
    defaults, profiles, the field rules of `UserManager.create_user` and
    `create_superuser`, and `User.full_name`. Saving users and running the
    profile hook are operations of the database (Database.dfy). */
module Accounts {
  import opened Common

  /** What `set_password` stores. Hashing is not modelled: a stored password
      records which raw password it was made from, and `check_password` holds
      for that raw password only. */
  datatype PasswordHash = Hashed(raw: string)

  predicate CheckPassword(h: PasswordHash, raw: string)
  {
    h.raw == raw
  }

  /** The boolean fields of a user that callers may pass as extra fields. */
  datatype Flag = IsSuperuser | IsStaff | IsActive | IsVerified

  /** The `**extra_fields` of the manager methods, restricted to the flags. */
  type ExtraFields = map<Flag, bool>

  datatype User = User(
    email: string,
    firstName: string,
    lastName: string,
    password: PasswordHash,
    isSuperuser: bool,
    isStaff: bool,
    isActive: bool,
    isVerified: bool)

  /** The declared length of the `email`, `first_name` and `last_name` columns. */
  const UserFieldMaxLength: nat := 250

  /** An e-mail and two names that fit their columns. */
  predicate FieldsFit(email: string, firstName: string, lastName: string)
  {
    |email| <= UserFieldMaxLength && |firstName| <= UserFieldMaxLength && |lastName| <= UserFieldMaxLength
  }

  /** The e-mail and the names of `u` fit their columns. */
  predicate UserFits(u: User)
  {
    FieldsFit(u.email, u.firstName, u.lastName)
  }

  /** A profile row; `bio` is the only column the model keeps. */
  datatype Profile = Profile(user: UserId, bio: string)

  datatype AccountError =
    | MissingEmail        // "User must have an email address"
    | StaffRequired       // "Superuser must be assigned to is_staff=True."
    | SuperuserRequired   // "Superuser must be assigned to is_superuser=True."
    | EmailTaken          // the unique constraint on `email`
    | FieldTooLong        // an e-mail or name longer than its column (`DataError`)

  /** The declared default of each flag column. */
  function FlagDefault(f: Flag): bool
  {
    match f
    case IsSuperuser => false
    case IsStaff => false
    case IsActive => true
    case IsVerified => false
  }

  function FlagOf(u: User, f: Flag): bool
  {
    match f
    case IsSuperuser => u.isSuperuser
    case IsStaff => u.isStaff
    case IsActive => u.isActive
    case IsVerified => u.isVerified
  }

  /** `self.model(email=..., first_name=..., last_name=..., **extra_fields)`
      followed by `set_password(password)`: a flag takes the value passed for it,
      and its column default otherwise. */
  function NewUser(email: string, firstName: string, lastName: string, password: string,
                   extra: ExtraFields): (u: User)
  {
    User(email, firstName, lastName, Hashed(password),
         if IsSuperuser in extra then extra[IsSuperuser] else FlagDefault(IsSuperuser),
         if IsStaff in extra then extra[IsStaff] else FlagDefault(IsStaff),
         if IsActive in extra then extra[IsActive] else FlagDefault(IsActive),
         if IsVerified in extra then extra[IsVerified] else FlagDefault(IsVerified))
  }

  /** Every flag of a new user is the one passed, or else the column default,
      and the password checks against the raw password only. */
  lemma NewUserFlags(email: string, firstName: string, lastName: string, password: string,
                     extra: ExtraFields, f: Flag, other: string)
    ensures FlagOf(NewUser(email, firstName, lastName, password, extra), f) ==
            if f in extra then extra[f] else FlagDefault(f)
    ensures CheckPassword(NewUser(email, firstName, lastName, password, extra).password, other)
            <==> other == password
  {
  }

  /** A user created without extra fields is active, unverified, not staff and
      not a superuser. */
  lemma PlainUserDefaults(email: string, firstName: string, lastName: string, password: string)
    ensures var u := NewUser(email, firstName, lastName, password, map[]);
      u.isActive && !u.isVerified && !u.isStaff && !u.isSuperuser
  {
  }

  /** `d.setdefault(k, v)`: adds `k` with value `v` only when `k` is absent. */
  function SetDefault(d: ExtraFields, k: Flag, v: bool): (r: ExtraFields)
    ensures k in r && r[k] == (if k in d then d[k] else v)
    ensures forall j :: j != k ==> (j in r <==> j in d) && (j in d ==> r[j] == d[j])
  {
    if k in d then d else d[k := v]
  }

  /** The four `setdefault` calls and the two checks at the start of
      `create_superuser`. */
  function SuperuserFields(extra: ExtraFields): (r: Result<ExtraFields, AccountError>)
    ensures r.Ok? <==>
      (IsStaff !in extra || extra[IsStaff]) && (IsSuperuser !in extra || extra[IsSuperuser])
    ensures r.Err? ==>
      r.error == (if IsStaff in extra && !extra[IsStaff] then StaffRequired else SuperuserRequired)
    ensures r.Ok? ==> forall f: Flag :: f in r.value && r.value[f] == (if f in extra then extra[f] else true)
  {
    var e := SetDefault(SetDefault(SetDefault(SetDefault(extra, IsStaff, true), IsSuperuser, true),
                                   IsActive, true), IsVerified, true);
    if e[IsStaff] != true then Err(StaffRequired)
    else if e[IsSuperuser] != true then Err(SuperuserRequired)
    else Ok(e)
  }

  /** A superuser created without extra fields has all four flags set. */
  lemma SuperuserDefaults(email: string, firstName: string, lastName: string, password: string)
    ensures SuperuserFields(map[]).Ok?
    ensures var u := NewUser(email, firstName, lastName, password, SuperuserFields(map[]).value);
      u.isStaff && u.isSuperuser && u.isActive && u.isVerified
  {
  }

  /** `is_active` and `is_verified` are not checked: a superuser may be created
      inactive and unverified. */
  lemma SuperuserActiveAndVerifiedUnchecked()
    ensures SuperuserFields(map[IsActive := false, IsVerified := false]).Ok?
  {
  }

  /** `User.full_name`: the first name, one space, the last name. */
  function FullName(u: User): (r: string)
    ensures |r| == |u.firstName| + 1 + |u.lastName|
    ensures r[..|u.firstName|] == u.firstName
    ensures r[|u.firstName|] == ' '
    ensures r[|u.firstName| + 1..] == u.lastName
  {
    u.firstName + " " + u.lastName
  }
}
