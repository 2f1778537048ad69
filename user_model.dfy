/** The persisted shapes of the user-management service: the role enumeration,
    the `users` row with its column defaults and small mutators, and the
    `retention_analytics` snapshot row. */
module UserModel {

  datatype Option<+T> = None | Some(value: T)

  /** `UserRole`: every stored user carries exactly one of these four values. */
  datatype UserRole = ANONYMOUS | AUTHENTICATED | MANAGER | ADMIN

  type UserId = nat
  /** Instants and durations are whole seconds. */
  type Timestamp = int
  type Token = string
  type Digest = string

  /** The enum's value, which is also its name. */
  function RoleName(r: UserRole): string
  {
    match r
    case ANONYMOUS => "ANONYMOUS"
    case AUTHENTICATED => "AUTHENTICATED"
    case MANAGER => "MANAGER"
    case ADMIN => "ADMIN"
  }

  /** `UserRole(s)`: the role whose value is `s`, if there is one. */
  function ParseRole(s: string): (r: Option<UserRole>)
    ensures r.Some? ==> RoleName(r.value) == s
    ensures r.None? ==> forall role :: RoleName(role) != s
  {
    if s == "ANONYMOUS" then Some(ANONYMOUS)
    else if s == "AUTHENTICATED" then Some(AUTHENTICATED)
    else if s == "MANAGER" then Some(MANAGER)
    else if s == "ADMIN" then Some(ADMIN)
    else None
  }

  lemma RoleNameRoundTrip(r: UserRole)
    ensures ParseRole(RoleName(r)) == Some(r)
  {
  }

  /** The optional profile columns. */
  datatype Profile = Profile(
    firstName: Option<string>,
    lastName: Option<string>,
    bio: Option<string>,
    profilePictureUrl: Option<string>,
    linkedinProfileUrl: Option<string>,
    githubProfileUrl: Option<string>)

  const NoProfile := Profile(None, None, None, None, None, None)

  /** The value of one stored `users` row. */
  datatype UserRow = UserRow(
    id: UserId,
    nickname: string,
    email: string,
    profile: Profile,
    role: UserRole,
    isProfessional: bool,
    professionalStatusUpdatedAt: Option<Timestamp>,
    lastLoginAt: Option<Timestamp>,
    failedLoginAttempts: nat,
    isLocked: bool,
    createdAt: Timestamp,
    updatedAt: Timestamp,
    verificationToken: Option<Token>,
    emailVerified: bool,
    hashedPassword: Digest,
    invitedByUserId: Option<UserId>,
    isConverted: bool)

  /** A `User` object built in memory and not yet committed: the attributes a
      caller may set, with the NOT NULL columns `nickname`, `hashed_password`
      and `role` possibly still unset. */
  datatype Draft = Draft(
    email: string,
    nickname: Option<string>,
    hashedPassword: Option<Digest>,
    role: Option<UserRole>,
    emailVerified: bool,
    verificationToken: Option<Token>,
    invitedByUserId: Option<UserId>,
    profile: Profile)

  /** The NOT NULL columns without a default are all set. */
  predicate RequiredColumnsSet(d: Draft)
  {
    d.nickname.Some? && d.hashedPassword.Some? && d.role.Some?
  }

  /** The row a draft becomes when it is inserted at `now` under primary key
      `id`: the columns the draft leaves out take their declared defaults. */
  function InsertedRow(id: UserId, d: Draft, now: Timestamp): (r: UserRow)
    requires RequiredColumnsSet(d)
    ensures r.id == id && r.email == d.email && r.nickname == d.nickname.value
    ensures r.role == d.role.value && r.hashedPassword == d.hashedPassword.value
    ensures r.emailVerified == d.emailVerified && r.verificationToken == d.verificationToken
    ensures r.failedLoginAttempts == 0 && r.lastLoginAt == None
    ensures !r.isLocked && !r.isProfessional && !r.isConverted
    ensures r.createdAt == now && r.updatedAt == now
    ensures r.profile == d.profile && r.invitedByUserId == d.invitedByUserId
    ensures r.professionalStatusUpdatedAt == None
  {
    UserRow(id, d.nickname.value, d.email, d.profile, d.role.value,
            false, None, None, 0, false, now, now,
            d.verificationToken, d.emailVerified, d.hashedPassword.value,
            d.invitedByUserId, false)
  }

  /** A stored user; its fields are updated in place by the services. */
  class User {
    const id: UserId
    var nickname: string
    var email: string
    /** The six optional profile columns. */
    var profile: Profile
    var role: UserRole
    var isProfessional: bool
    var professionalStatusUpdatedAt: Option<Timestamp>
    var lastLoginAt: Option<Timestamp>
    var failedLoginAttempts: nat
    var isLocked: bool
    var createdAt: Timestamp
    var updatedAt: Timestamp
    var verificationToken: Option<Token>
    var emailVerified: bool
    var hashedPassword: Digest
    var invitedByUserId: Option<UserId>
    var isConverted: bool

    /** The current value of this user's row. */
    function Row(): UserRow
      reads this
    {
      UserRow(id, nickname, email, profile, role, isProfessional, professionalStatusUpdatedAt, lastLoginAt,
              failedLoginAttempts, isLocked, createdAt, updatedAt,
              verificationToken, emailVerified, hashedPassword, invitedByUserId, isConverted)
    }

    /** Insertion of a draft: the row takes the column defaults. */
    constructor (id: UserId, d: Draft, now: Timestamp)
      requires RequiredColumnsSet(d)
      ensures Row() == InsertedRow(id, d, now)
    {
      this.id := id;
      nickname := d.nickname.value;
      email := d.email;
      profile := d.profile;
      role := d.role.value;
      isProfessional := false;
      professionalStatusUpdatedAt := None;
      lastLoginAt := None;
      failedLoginAttempts := 0;
      isLocked := false;
      createdAt := now;
      updatedAt := now;
      verificationToken := d.verificationToken;
      emailVerified := d.emailVerified;
      hashedPassword := d.hashedPassword.value;
      invitedByUserId := d.invitedByUserId;
      isConverted := false;
    }

    method LockAccount()
      modifies this
      ensures Row() == old(Row()).(isLocked := true)
    {
      isLocked := true;
    }

    method UnlockAccount()
      modifies this
      ensures Row() == old(Row()).(isLocked := false)
    {
      isLocked := false;
    }

    method VerifyEmail()
      modifies this
      ensures Row() == old(Row()).(emailVerified := true)
    {
      emailVerified := true;
    }

    /** `has_role`: the user holds `r` exactly when its stored role is `r`. */
    predicate HasRole(r: UserRole)
      reads this
      ensures HasRole(r) <==> Row().role == r
    {
      role == r
    }

    /** Sets the professional flag and stamps the time of the change. */
    method UpdateProfessionalStatus(status: bool, now: Timestamp)
      modifies this
      ensures Row() == old(Row()).(isProfessional := status, professionalStatusUpdatedAt := Some(now))
    {
      isProfessional := status;
      professionalStatusUpdatedAt := Some(now);
    }

    method UpdateLastLogin(now: Timestamp)
      modifies this
      ensures Row() == old(Row()).(lastLoginAt := Some(now))
    {
      lastLoginAt := Some(now);
    }
  }

  /** `has_role` singles out exactly one role for every user. */
  lemma ExactlyOneRole(u: User, r: UserRole)
    ensures u.HasRole(u.role)
    ensures u.HasRole(r) <==> r == u.Row().role
  {
  }

  /** One `retention_analytics` row, immutable once written. All four
      inactivity windows are carried. */
  datatype RetentionAnalytics = RetentionAnalytics(
    id: nat,
    timestamp: Timestamp,
    totalAnonymousUsers: nat,
    totalAuthenticatedUsers: nat,
    conversionRate: string,
    inactiveUsers24hr: nat,
    inactiveUsers48hr: nat,
    inactiveUsers1wk: nat,
    inactiveUsers1yr: nat)

  /** `conversion_rate` is a VARCHAR(10). */
  const ConversionRateWidth := 10
}
