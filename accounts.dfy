/** The user record of apps/accounts/models.py: its field constraints (role
    choices, name length, the phone pattern and length cap), its defaults,
    and the manager operations `create_user` and `create_superuser` over the
    user table. */
module Accounts {
  import opened Util
  import opened Text

  /** The primary key; a random UUID in the source, an opaque number here. */
  type UserId = nat

  datatype User = User(
    id: UserId,
    name: string,
    email: string,
    phone: string,
    role: string,
    receiverId: string,
    isActive: bool,
    isStaff: bool,
    isAdmin: bool,
    lastLogin: Option<int>,
    createdAt: int,
    updatedAt: int)

  // ---------------------------------------------------------------------
  // Field constraints

  const NameMaxLength := 100
  const PhoneMaxLength := 15
  const RoleMaxLength := 10

  /** The three `USER_ROLES` choices; RoleValue is the value stored in the column. */
  datatype Role = AdminRole | UserRole | GuestRole

  function RoleValue(r: Role): string
  {
    match r
    case AdminRole => "Admin"
    case UserRole => "User"
    case GuestRole => "Guest"
  }

  /** The choice a stored `role` string stands for, if any: the inverse of RoleValue. */
  function ParseRole(v: string): (r: Option<Role>)
    ensures r.Some? ==> RoleValue(r.value) == v
    ensures forall role :: RoleValue(role) == v ==> r == Some(role)
  {
    if v == "Admin" then Some(AdminRole)
    else if v == "User" then Some(UserRole)
    else if v == "Guest" then Some(GuestRole)
    else None
  }

  /** Every declared choice fits the column. */
  lemma RoleFitsColumn(r: Role)
    ensures ParseRole(RoleValue(r)) == Some(r) && |RoleValue(r)| <= RoleMaxLength
  {
  }

  predicate IsDigit(c: char)
  {
    '0' <= c <= '9'
  }

  predicate AllDigits(s: string)
  {
    forall i :: 0 <= i < |s| ==> IsDigit(s[i])
  }

  /** `\d{9,15}` spanning all of `s`. */
  predicate DigitRun(s: string)
  {
    9 <= |s| <= 15 && AllDigits(s)
  }

  /** `1?\d{9,15}` spanning all of `s`: either choice for the optional `1`. */
  predicate OneThenDigits(s: string)
  {
    DigitRun(s) || (|s| > 0 && s[0] == '1' && DigitRun(s[1..]))
  }

  /** `\+?1?\d{9,15}` spanning all of `s`. */
  predicate PhoneBody(s: string)
  {
    OneThenDigits(s) || (|s| > 0 && s[0] == '+' && OneThenDigits(s[1..]))
  }

  /** `re.search(r"^\+?1?\d{9,15}$", s)` as Python evaluates it: `$` matches at
      the end of the string and also just before a newline that ends it. */
  predicate PhonePatternMatches(s: string)
  {
    PhoneBody(s) || (|s| > 0 && s[|s| - 1] == '\n' && PhoneBody(s[..|s| - 1]))
  }

  /** The phone field as written: `max_length=15` and the RegexValidator. */
  predicate PhoneAcceptedAsWritten(s: string)
  {
    |s| <= PhoneMaxLength && PhonePatternMatches(s)
  }

  /** The phone field as evidently intended: the pattern anchored at the very
      end of the string, plus the length cap. */
  predicate PhoneValid(s: string)
  {
    |s| <= PhoneMaxLength && PhoneBody(s)
  }

  /** A valid phone number is 9 to 15 digits, or a `+` followed by 9 to 14
      digits: the optional `1` adds nothing beyond a sixteenth digit, which the
      length cap rules out. */
  lemma PhoneValidIff(s: string)
    ensures PhoneValid(s) <==>
      (AllDigits(s) && 9 <= |s| <= 15) ||
      (|s| > 0 && s[0] == '+' && AllDigits(s[1..]) && 9 <= |s| - 1 <= 14)
  {
    if |s| > 0 && s[0] == '1' && DigitRun(s[1..]) {
      assert AllDigits(s) by {
        forall i | 0 <= i < |s| ensures IsDigit(s[i]) {
          if i > 0 { assert s[i] == s[1..][i - 1]; }
        }
      }
    }
    if |s| > 1 && s[0] == '+' && s[1] == '1' && DigitRun(s[2..]) {
      assert s[1..][1..] == s[2..];
      assert AllDigits(s[1..]) by {
        forall i | 0 <= i < |s| - 1 ensures IsDigit(s[1..][i]) {
          if i > 0 { assert s[1..][i] == s[2..][i - 1]; }
        }
      }
    }
  }

  /** Sixteen digits pass the pattern exactly when the first is a `1`, and the
      length cap then rejects them all. */
  lemma SixteenDigitPhone(s: string)
    requires AllDigits(s) && |s| == 16
    ensures PhonePatternMatches(s) <==> s[0] == '1'
    ensures !PhoneAcceptedAsWritten(s) && !PhoneValid(s)
  {
    if s[0] == '1' {
      assert AllDigits(s[1..]) by {
        forall i | 0 <= i < 15 ensures IsDigit(s[1..][i]) { assert s[1..][i] == s[i + 1]; }
      }
      assert DigitRun(s[1..]);
    }
    assert s[|s| - 1] != '\n';
  }

  /** The validator as written accepts exactly the intended numbers, plus
      those of at most 14 characters followed by one newline. */
  lemma {:induction false} PhoneAsWrittenIff(s: string)
    ensures PhoneAcceptedAsWritten(s) <==>
      PhoneValid(s) || (0 < |s| <= PhoneMaxLength && s[|s| - 1] == '\n' && PhoneValid(s[..|s| - 1]))
  {
    if |s| > 0 && s[|s| - 1] == '\n' {
      var t := s[..|s| - 1];
      // a valid body never ends in a newline, so the two readings are disjoint
      assert PhoneBody(s) ==> IsDigit(s[|s| - 1]) by {
        if OneThenDigits(s) {
          if !DigitRun(s) { assert s[1..][|s| - 2] == s[|s| - 1]; }
        } else if PhoneBody(s) {
          var u := s[1..];
          assert u[|u| - 1] == s[|s| - 1];
          if !DigitRun(u) { assert u[1..][|u| - 2] == u[|u| - 1]; }
        }
      }
    }
  }

  /** The discrepancy on a concrete input: nine digits and a newline pass the
      validator as written, though no phone number ends in a newline. */
  lemma TrailingNewlineAccepted()
    ensures PhoneAcceptedAsWritten("123456789\n")
    ensures !PhoneValid("123456789\n")
  {
    var s := "123456789\n";
    assert s[..|s| - 1] == "123456789";
    assert DigitRun("123456789");
    assert !IsDigit(s[|s| - 1]);
    PhoneAsWrittenIff(s);
    PhoneValidIff(s);
  }

  predicate NameValid(name: string)
  {
    |name| <= NameMaxLength
  }

  predicate RoleValid(role: string)
  {
    ParseRole(role).Some?
  }

  /** The declared constraints on name, phone and role. Django checks them in
      `full_clean()`, which neither manager operation calls. */
  predicate FieldConstraintsHold(u: User)
  {
    NameValid(u.name) && PhoneValid(u.phone) && RoleValid(u.role)
  }

  // ---------------------------------------------------------------------
  // The user table and its manager

  predicate UniqueIds(users: seq<User>)
  {
    forall i, j :: 0 <= i < j < |users| ==> users[i].id != users[j].id
  }

  /** The database constraint `email = EmailField(unique=True)`: exact, case-sensitive. */
  predicate UniqueEmails(users: seq<User>)
  {
    forall i, j :: 0 <= i < j < |users| ==> users[i].email != users[j].email
  }

  /** The stronger property the case-insensitive lookups of the views rely on. */
  predicate UniqueEmailsIgnoringCase(users: seq<User>)
  {
    forall i, j :: 0 <= i < j < |users| ==> !EqualsIgnoreCase(users[i].email, users[j].email)
  }

  lemma IgnoringCaseIsStronger(users: seq<User>)
    requires UniqueEmailsIgnoringCase(users)
    ensures UniqueEmails(users)
  {
  }

  datatype AccountError = ValueError(message: string) | IntegrityError

  const EmailRequired := "The Email field must be set"
  const StaffRequired := "Superuser must have is_staff=True."
  const AdminRequired := "Superuser must have is_admin=True."

  /** The `**extra_fields` that `create_user` passes to the model; a missing
      entry takes the field's default. */
  datatype UserFields = UserFields(
    phone: Option<string>,
    role: Option<string>,
    isActive: Option<bool>,
    isStaff: Option<bool>,
    isAdmin: Option<bool>)

  const NoExtraFields := UserFields(None, None, None, None, None)

  /** A keyword value given for a flag of `create_superuser`: a Python bool,
      or some other object (which `is not True` also rejects). */
  datatype FlagArg = Flag(b: bool) | NonBool

  datatype SuperuserFields = SuperuserFields(
    phone: Option<string>,
    role: Option<string>,
    isActive: Option<bool>,
    isStaff: Option<FlagArg>,
    isAdmin: Option<FlagArg>)

  /** `self.model(email=..., name=..., **extra_fields)`: every field not given
      takes its declared default. */
  function NewUser(id: UserId, email: string, name: string, fields: UserFields, now: int): (u: User)
    ensures u.id == id && u.email == email && u.name == name
    ensures fields.isActive.None? ==> u.isActive
    ensures fields.isStaff.None? ==> !u.isStaff
    ensures fields.isAdmin.None? ==> !u.isAdmin
    ensures fields.phone.None? ==> u.phone == ""
    ensures fields.role.None? ==> u.role == ""
    ensures fields.isActive.Some? ==> u.isActive == fields.isActive.value
    ensures fields.isStaff.Some? ==> u.isStaff == fields.isStaff.value
    ensures fields.isAdmin.Some? ==> u.isAdmin == fields.isAdmin.value
    ensures fields.phone.Some? ==> u.phone == fields.phone.value
    ensures fields.role.Some? ==> u.role == fields.role.value
    ensures u.lastLogin.None? && u.createdAt == now && u.updatedAt == now
    ensures u.receiverId == ""
  {
    User(id, name, email, OrElse(fields.phone, ""), OrElse(fields.role, ""), "",
         OrElse(fields.isActive, true), OrElse(fields.isStaff, false), OrElse(fields.isAdmin, false),
         None, now, now)
  }

  /** Whether `save()` of a new row with this id and email violates the
      primary-key or the email uniqueness constraint. */
  predicate Collides(users: seq<User>, id: UserId, email: string)
  {
    exists i :: 0 <= i < |users| && (users[i].id == id || users[i].email == email)
  }

  /** What `create_user` returns (or raises) and what the table holds afterwards. */
  function CreateUserOutcome(users: seq<User>, email: Option<string>, name: string, fields: UserFields,
                             normalize: string -> string, id: UserId, now: int): (o: (Result<User, AccountError>, seq<User>))
    ensures o.0 == Failure(ValueError(EmailRequired)) <==> email.None? || email.value == ""
    ensures o.0.Failure? ==> o.1 == users
    ensures o.0.Success? ==> o.1 == users + [o.0.value]
    ensures o.0.Success? ==> o.0.value == NewUser(id, normalize(email.value), name, fields, now)
    ensures o.0.Success? <==> email.Some? && email.value != "" && !Collides(users, id, normalize(email.value))
    ensures UniqueIds(users) && UniqueEmails(users) ==> UniqueIds(o.1) && UniqueEmails(o.1)
  {
    if email.None? || email.value == "" then (Failure(ValueError(EmailRequired)), users)
    else
      var u := NewUser(id, normalize(email.value), name, fields, now);
      if Collides(users, id, u.email) then (Failure(IntegrityError), users)
      else (Success(u), users + [u])
  }

  /** `create_user` saves without `full_clean()`, so a row that breaks every
      declared field constraint is inserted all the same. */
  lemma CreateUserSkipsValidation(normalize: string -> string, now: int)
    ensures var name := seq(NameMaxLength + 1, _ => 'x');
      var fields := UserFields(Some("12ab"), Some("Owner"), None, None, None);
      var o := CreateUserOutcome([], Some("ann@example.com"), name, fields, normalize, 1, now);
      && o.0.Success?
      && !NameValid(o.0.value.name) && !PhoneValid(o.0.value.phone) && !RoleValid(o.0.value.role)
      && !FieldConstraintsHold(o.0.value)
  {
    var phone := "12ab";
    assert !IsDigit(phone[2]);
  }

  class UserTable {
    var users: seq<User>

    ghost predicate Valid()
      reads this
    {
      UniqueIds(users) && UniqueEmails(users)
    }

    constructor ()
      ensures Valid() && users == []
    {
      users := [];
    }

    /** `UserManager.create_user`: refuse an empty email, build the row from
        the normalised email and the defaults, and insert it. */
    method CreateUser(email: Option<string>, name: string, fields: UserFields,
                      normalize: string -> string, id: UserId, now: int) returns (r: Result<User, AccountError>)
      requires Valid()
      modifies this
      ensures Valid()
      ensures (r, users) == CreateUserOutcome(old(users), email, name, fields, normalize, id, now)
    {
      if email.None? || email.value == "" {
        return Failure(ValueError(EmailRequired));
      }
      var normalized := normalize(email.value);
      var user := NewUser(id, normalized, name, fields, now);
      if Collides(users, id, normalized) {
        return Failure(IntegrityError);
      }
      users := users + [user];
      r := Success(user);
    }

    /** `UserManager.create_superuser`: default both flags to True, insist that
        each is exactly True, then defer to `create_user`. */
    method CreateSuperuser(email: Option<string>, name: string, fields: SuperuserFields,
                           normalize: string -> string, id: UserId, now: int) returns (r: Result<User, AccountError>)
      requires Valid()
      modifies this
      ensures Valid()
      ensures fields.isStaff.Some? && fields.isStaff != Some(Flag(true)) ==>
                r == Failure(ValueError(StaffRequired)) && users == old(users)
      ensures (fields.isStaff.None? || fields.isStaff == Some(Flag(true))) &&
              fields.isAdmin.Some? && fields.isAdmin != Some(Flag(true)) ==>
                r == Failure(ValueError(AdminRequired)) && users == old(users)
      ensures (fields.isStaff.None? || fields.isStaff == Some(Flag(true))) &&
              (fields.isAdmin.None? || fields.isAdmin == Some(Flag(true))) ==>
                (r, users) == CreateUserOutcome(old(users), email, name,
                  UserFields(fields.phone, fields.role, fields.isActive, Some(true), Some(true)),
                  normalize, id, now)
      ensures r.Success? ==> r.value.isStaff && r.value.isAdmin
    {
      var isStaff := fields.isStaff;
      if isStaff.None? {
        isStaff := Some(Flag(true));
      }
      var isAdmin := fields.isAdmin;
      if isAdmin.None? {
        isAdmin := Some(Flag(true));
      }
      if isStaff != Some(Flag(true)) {
        return Failure(ValueError(StaffRequired));
      }
      if isAdmin != Some(Flag(true)) {
        return Failure(ValueError(AdminRequired));
      }
      r := CreateUser(email, name, UserFields(fields.phone, fields.role, fields.isActive, Some(true), Some(true)),
                      normalize, id, now);
    }
  }
}
