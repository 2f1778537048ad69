/** The user lifecycle service: registration, lookups, updates with role
    authorisation, deletion, paging, login with lockout, invitation, password
    reset, e-mail verification and unlocking. Each operation is one atomic
    step over the session; every state change is specified by a pure step on
    the affected row, and the lemmas at the end relate the steps. */
module UserService {
  import opened UserModel
  import opened Store

  /** The registration payload once the `UserCreate` schema has accepted it. */
  datatype CreateInput = CreateInput(email: string, password: string, profile: Profile)

  /** The columns an update patch may name. */
  datatype PatchField =
    | Email | Nickname | FirstName | LastName | Bio
    | ProfilePictureUrl | LinkedinProfileUrl | GithubProfileUrl | Role

  /** Step 1 of `update`: keep only the entries whose value is not None. */
  function CleanPatch(raw: map<PatchField, Option<string>>): (p: map<PatchField, string>)
    ensures forall f :: f in p <==> f in raw && raw[f].Some?
    ensures forall f :: f in p ==> raw[f] == Some(p[f])
  {
    map f | f in raw && raw[f].Some? :: raw[f].value
  }

  /** Step 2 of `update`: the `UserUpdate` schema accepts the cleaned patch.
      Its field formats are the `schemaValid` verdict; a role must be one of
      the enum's values. */
  predicate PatchValid(p: map<PatchField, string>, schemaValid: bool)
    ensures PatchValid(p, schemaValid) ==> schemaValid
    ensures Role !in p ==> (PatchValid(p, schemaValid) <==> schemaValid)
    ensures Role in p ==> (PatchValid(p, schemaValid) <==> schemaValid && exists r :: RoleName(r) == p[Role])
  {
    schemaValid && (Role in p ==> ParseRole(p[Role]).Some?)
  }

  /** The value a patch field addresses in a row, as the patch would spell it. */
  function FieldValue(r: UserRow, f: PatchField): Option<string>
  {
    match f
    case Email => Some(r.email)
    case Nickname => Some(r.nickname)
    case FirstName => r.profile.firstName
    case LastName => r.profile.lastName
    case Bio => r.profile.bio
    case ProfilePictureUrl => r.profile.profilePictureUrl
    case LinkedinProfileUrl => r.profile.linkedinProfileUrl
    case GithubProfileUrl => r.profile.githubProfileUrl
    case Role => Some(RoleName(r.role))
  }

  function Patched(p: map<PatchField, string>, f: PatchField, current: Option<string>): Option<string>
  {
    if f in p then Some(p[f]) else current
  }

  /** `UPDATE users SET ... WHERE id = ...` on one row: every patched field
      takes its new value, every other column keeps its value. */
  function ApplyPatch(r: UserRow, p: map<PatchField, string>): (r': UserRow)
    requires Role in p ==> ParseRole(p[Role]).Some?
    ensures r'.(email := r.email, nickname := r.nickname, profile := r.profile, role := r.role) == r
  {
    var pr := r.profile;
    r.(email := if Email in p then p[Email] else r.email,
       nickname := if Nickname in p then p[Nickname] else r.nickname,
       profile := Profile(Patched(p, FirstName, pr.firstName),
                          Patched(p, LastName, pr.lastName),
                          Patched(p, Bio, pr.bio),
                          Patched(p, ProfilePictureUrl, pr.profilePictureUrl),
                          Patched(p, LinkedinProfileUrl, pr.linkedinProfileUrl),
                          Patched(p, GithubProfileUrl, pr.githubProfileUrl)),
       role := if Role in p then ParseRole(p[Role]).value else r.role)
  }

  /** A patch sets exactly the fields it names and leaves the others alone. */
  lemma ApplyPatchFields(r: UserRow, p: map<PatchField, string>, f: PatchField)
    requires Role in p ==> ParseRole(p[Role]).Some?
    ensures f in p ==> FieldValue(ApplyPatch(r, p), f) == Some(p[f])
    ensures f !in p ==> FieldValue(ApplyPatch(r, p), f) == FieldValue(r, f)
  {
    var r' := ApplyPatch(r, p);
    match f
    case Email =>
    case Nickname =>
    case FirstName =>
    case LastName =>
    case Bio =>
    case ProfilePictureUrl =>
    case LinkedinProfileUrl =>
    case GithubProfileUrl =>
    case Role =>
      if Role in p {
        assert RoleName(ParseRole(p[Role]).value) == p[Role];
      }
  }

  /** Why an update returns None. */
  datatype UpdateError = NoFieldsToUpdate | InvalidPatch | Unauthorized | NotFound | Conflict

  datatype UpdateOutcome = Applied(index: nat, row: UserRow) | Rejected(error: UpdateError)

  /** The decision `update` takes, in the order it checks: an empty patch, a
      schema violation, a role change by a non-ADMIN actor, an unknown id, a
      UNIQUE violation at commit; otherwise the patched row. */
  function PlanUpdate(rows: seq<UserRow>, userId: UserId, raw: map<PatchField, Option<string>>,
                      schemaValid: bool, actorRole: Option<string>): (o: UpdateOutcome)
    ensures |CleanPatch(raw)| == 0 ==> o == Rejected(NoFieldsToUpdate)
    ensures Role in CleanPatch(raw) && actorRole != Some(RoleName(ADMIN)) ==> o.Rejected?
    ensures !Taken(rows, ById(userId)) ==> o.Rejected?
    ensures && |CleanPatch(raw)| > 0 && PatchValid(CleanPatch(raw), schemaValid)
            && (Role in CleanPatch(raw) ==> actorRole == Some(RoleName(ADMIN)))
            && FindFirst(rows, ById(userId)).Some?
            && !ClashesWithOthers(rows, FindFirst(rows, ById(userId)).value,
                                  ApplyPatch(rows[FindFirst(rows, ById(userId)).value], CleanPatch(raw)))
            ==> o.Applied?
    ensures o.Applied? ==>
      && o.index < |rows| && rows[o.index].id == userId
      && PatchValid(CleanPatch(raw), schemaValid)
      && o.row == ApplyPatch(rows[o.index], CleanPatch(raw))
    ensures o.Applied? && UniqueKeys(rows) ==> UniqueKeys(rows[o.index := o.row])
  {
    var p := CleanPatch(raw);
    if |p| == 0 then Rejected(NoFieldsToUpdate)
    else if !PatchValid(p, schemaValid) then Rejected(InvalidPatch)
    else if Role in p && actorRole != Some(RoleName(ADMIN)) then Rejected(Unauthorized)
    else
      match FindFirst(rows, ById(userId))
      case None => Rejected(NotFound)
      case Some(i) =>
        var r := ApplyPatch(rows[i], p);
        if ClashesWithOthers(rows, i, r) then Rejected(Conflict)
        else
          assert UniqueKeys(rows) ==> UniqueKeys(rows[i := r]) by {
            if UniqueKeys(rows) { ReplaceKeepsUnique(rows, i, r); }
          }
          Applied(i, r)
  }

  datatype LoginResult = LoginResult(row: UserRow, authenticated: bool)

  /** `login_user` on the user the e-mail names: refused without change when
      the e-mail is unverified or the account is locked; on a password match
      the counter resets and the login time is stamped; on a mismatch the
      counter grows by one and the account locks once it reaches the maximum. */
  function LoginStep(r: UserRow, passwordOk: bool, maxAttempts: int, now: Timestamp): (res: LoginResult)
    ensures res.authenticated <==> r.emailVerified && !r.isLocked && passwordOk
    ensures !r.emailVerified || r.isLocked ==> res.row == r
    ensures res.authenticated ==> res.row == r.(failedLoginAttempts := 0, lastLoginAt := Some(now))
    ensures r.emailVerified && !r.isLocked && !passwordOk ==>
      && res.row.failedLoginAttempts == r.failedLoginAttempts + 1
      && (res.row.isLocked <==> r.failedLoginAttempts + 1 >= maxAttempts)
      && res.row.(failedLoginAttempts := r.failedLoginAttempts, isLocked := r.isLocked) == r
  {
    if !r.emailVerified then LoginResult(r, false)
    else if r.isLocked then LoginResult(r, false)
    else if passwordOk then LoginResult(r.(failedLoginAttempts := 0, lastLoginAt := Some(now)), true)
    else
      var attempts := r.failedLoginAttempts + 1;
      LoginResult(r.(failedLoginAttempts := attempts,
                     isLocked := if attempts >= maxAttempts then true else r.isLocked), false)
  }

  /** `reset_password` on an existing user. */
  function ResetRow(r: UserRow, digest: Digest): (r': UserRow)
    ensures r'.hashedPassword == digest && r'.failedLoginAttempts == 0 && !r'.isLocked
    ensures r'.(hashedPassword := r.hashedPassword, failedLoginAttempts := r.failedLoginAttempts,
                isLocked := r.isLocked) == r
  {
    r.(hashedPassword := digest, failedLoginAttempts := 0, isLocked := false)
  }

  /** `verify_email_with_token` on an existing user: None when the token does
      not match the stored one. */
  function VerifyStep(r: UserRow, token: Token): (v: Option<UserRow>)
    ensures v.Some? <==> r.verificationToken == Some(token)
    ensures v.Some? ==> v.value.emailVerified && v.value.verificationToken == None
    ensures v.Some? ==> v.value.role == (if r.role == ANONYMOUS then AUTHENTICATED else r.role)
    ensures v.Some? ==>
      v.value.(emailVerified := r.emailVerified, verificationToken := r.verificationToken, role := r.role) == r
  {
    if r.verificationToken == Some(token) then
      Some(r.(emailVerified := true, verificationToken := None,
              role := if r.role == ANONYMOUS then AUTHENTICATED else r.role))
    else None
  }

  /** `unlock_user_account` on an existing user: None unless it is locked. */
  function UnlockStep(r: UserRow): (v: Option<UserRow>)
    ensures v.Some? <==> r.isLocked
    ensures v.Some? ==> !v.value.isLocked && v.value.failedLoginAttempts == 0
    ensures v.Some? ==> v.value.(isLocked := r.isLocked, failedLoginAttempts := r.failedLoginAttempts) == r
  {
    if r.isLocked then Some(r.(isLocked := false, failedLoginAttempts := 0)) else None
  }

  /** The transient user `invite_user` builds: only e-mail, inviter and token. */
  function InvitationStub(email: string, inviterId: UserId, token: Token): (d: Draft)
    ensures d.email == email && d.invitedByUserId == Some(inviterId) && d.verificationToken == Some(token)
    ensures d.nickname == None && d.hashedPassword == None && d.role == None
    ensures !d.emailVerified && d.profile == NoProfile
  {
    Draft(email, None, None, None, false, Some(token), Some(inviterId), NoProfile)
  }

  /** The invitation stub leaves the NOT NULL columns `nickname`,
      `hashed_password` and `role` unset, so the database refuses it. */
  lemma InvitationStubRejected(rows: seq<UserRow>, email: string, inviterId: UserId, token: Token)
    ensures !Insertable(rows, InvitationStub(email, inviterId, token))
  {
  }

  /** The user `create` builds before committing it: the first user of the
      store becomes ADMIN with a verified e-mail, every later one ANONYMOUS
      and unverified; every one gets a verification token. */
  function RegistrationDraft(input: CreateInput, digest: Digest, nickname: string, firstUser: bool,
                             token: Token): (d: Draft)
    ensures RequiredColumnsSet(d)
    ensures d.role == Some(if firstUser then ADMIN else ANONYMOUS)
    ensures d.emailVerified <==> firstUser
    ensures d.verificationToken == Some(token) && d.invitedByUserId == None
    ensures d.email == input.email && d.nickname == Some(nickname) && d.hashedPassword == Some(digest)
    ensures d.profile == input.profile
  {
    var role := if firstUser then ADMIN else ANONYMOUS;
    Draft(input.email, Some(nickname), Some(digest), Some(role), role == ADMIN, Some(token), None, input.profile)
  }

  /** `nickname` is the first generated name that no user holds. */
  ghost predicate FirstFreeNickname(rows: seq<UserRow>, nicknames: seq<string>, nickname: string)
  {
    exists k :: && 0 <= k < |nicknames| && nicknames[k] == nickname
                && !Taken(rows, ByNickname(nicknames[k]))
                && forall j :: 0 <= j < k ==> Taken(rows, ByNickname(nicknames[j]))
  }

  /** A registered user starts with no failed logins, unlocked, not
      professional, not converted, never logged in and not invited; it is
      ADMIN and verified exactly when the store was empty, and it always
      carries the token. */
  lemma RegisteredUser(id: UserId, input: CreateInput, digest: Digest, nickname: string, firstUser: bool,
                       token: Token, now: Timestamp)
    ensures var r := InsertedRow(id, RegistrationDraft(input, digest, nickname, firstUser, token), now);
            && r.email == input.email && r.nickname == nickname && r.hashedPassword == digest
            && (r.role == ADMIN <==> firstUser) && (r.role == ANONYMOUS <==> !firstUser)
            && (r.emailVerified <==> firstUser) && r.verificationToken == Some(token)
            && r.failedLoginAttempts == 0 && !r.isLocked && !r.isProfessional && !r.isConverted
            && r.lastLoginAt == None && r.invitedByUserId == None && r.createdAt == now
            && r.profile == input.profile && r.professionalStatusUpdatedAt == None
  {
  }

  class UserService {
    /** `settings.max_login_attempts`. */
    const maxLoginAttempts: int

    constructor (maxLoginAttempts: int)
      ensures this.maxLoginAttempts == maxLoginAttempts
    {
      this.maxLoginAttempts := maxLoginAttempts;
    }

    /** `_fetch_user`: the first user the filter matches, or null. */
    static method FetchUser(db: Session, f: Filter) returns (u: User?)
      ensures u == null <==> !Taken(db.Rows(), f)
      ensures u != null ==> u in db.users && Matches(u.Row(), f)
      ensures u != null ==> exists i :: FindFirst(db.Rows(), f) == Some(i) && u == db.users[i]
    {
      match FindFirst(db.Rows(), f)
      case None => u := null;
      case Some(i) => u := db.users[i];
    }

    static method GetById(db: Session, userId: UserId) returns (u: User?)
      ensures u == null <==> !Taken(db.Rows(), ById(userId))
      ensures u != null ==> u in db.users && u.id == userId
      ensures u != null ==> exists i :: FindFirst(db.Rows(), ById(userId)) == Some(i) && u == db.users[i]
    {
      u := FetchUser(db, ById(userId));
    }

    static method GetByNickname(db: Session, nickname: string) returns (u: User?)
      ensures u != null ==> u in db.users && u.nickname == nickname
      ensures u == null <==> !Taken(db.Rows(), ByNickname(nickname))
    {
      u := FetchUser(db, ByNickname(nickname));
    }

    static method GetByEmail(db: Session, email: string) returns (u: User?)
      ensures u == null <==> !Taken(db.Rows(), ByEmail(email))
      ensures u != null ==> u in db.users && u.email == email
      ensures u != null ==> exists i :: FindFirst(db.Rows(), ByEmail(email)) == Some(i) && u == db.users[i]
    {
      u := FetchUser(db, ByEmail(email));
    }

    /** `count`: the number of rows in `users`. */
    static method Count(db: Session) returns (n: nat)
      ensures n == |db.Rows()|
    {
      n := |db.users|;
    }

    /** `list_users`: OFFSET `skip` LIMIT `limit` in table order. A negative
        offset or limit is a database error, which the query helper turns
        into an empty list. */
    static method ListUsers(db: Session, skip: int, limit: int) returns (page: seq<User>)
      ensures skip < 0 || limit < 0 ==> page == []
      ensures 0 <= skip && 0 <= limit ==>
        && |page| == (if skip >= |db.users| then 0 else Min(limit, |db.users| - skip))
        && forall k :: 0 <= k < |page| ==> page[k] == db.users[skip + k]
    {
      if skip < 0 || limit < 0 {
        return [];
      }
      var n := |db.users|;
      var lo := if skip < n then skip else n;
      var hi := if limit < n - lo then lo + limit else n;
      page := db.users[lo..hi];
    }

    /** The `while get_by_nickname(...)` loop of `create`: the position of the
        first generated nickname no user holds yet. */
    static method PickNickname(db: Session, candidates: seq<string>) returns (k: nat)
      requires exists j :: 0 <= j < |candidates| && !Taken(db.Rows(), ByNickname(candidates[j]))
      ensures k < |candidates| && !Taken(db.Rows(), ByNickname(candidates[k]))
      ensures forall j :: 0 <= j < k ==> Taken(db.Rows(), ByNickname(candidates[j]))
    {
      // The first free candidate, which bounds the search.
      ghost var free :| 0 <= free < |candidates| && !Taken(db.Rows(), ByNickname(candidates[free]));
      k := 0;
      var holder := GetByNickname(db, candidates[k]);
      while holder != null
        invariant k <= free
        invariant forall j :: 0 <= j < k ==> Taken(db.Rows(), ByNickname(candidates[j]))
        invariant holder == null <==> !Taken(db.Rows(), ByNickname(candidates[k]))
        decreases free - k
      {
        assert k != free;
        k := k + 1;
        holder := GetByNickname(db, candidates[k]);
      }
    }

    /** `create`. `schemaValid` is the verdict of the `UserCreate` schema,
        `hash` the password hasher, `nicknames` the successive outputs of the
        nickname generator, `token` the generated verification token. */
    static method Create(db: Session, input: CreateInput, schemaValid: bool, hash: string -> Digest,
                         nicknames: seq<string>, token: Token, now: Timestamp) returns (u: User?)
      requires db.Valid()
      requires exists j :: 0 <= j < |nicknames| && !Taken(db.Rows(), ByNickname(nicknames[j]))
      modifies db
      ensures db.Valid() && db.snapshots == old(db.snapshots)
      ensures u == null <==> !schemaValid || Taken(old(db.Rows()), ByEmail(input.email))
      ensures u == null ==> db.users == old(db.users) && db.Rows() == old(db.Rows())
      ensures u != null ==> && fresh(u) && db.users == old(db.users) + [u]
                            && db.Rows() == old(db.Rows()) + [u.Row()]
                            && FirstFreeNickname(old(db.Rows()), nicknames, u.nickname)
                            && u.Row() == InsertedRow(old(db.nextUserId),
                                 RegistrationDraft(input, hash(input.password), u.nickname, |old(db.users)| == 0, token), now)
    {
      if !schemaValid {
        return null;
      }
      var existing := GetByEmail(db, input.email);
      if existing != null {
        return null;
      }
      var digest := hash(input.password);
      u := InsertRegistration(db, input, digest, nicknames, token, now);
    }

    /** The part of `create` after the checks: a fresh nickname, the role by
        the user count, the token, and the insert, which always commits. */
    static method InsertRegistration(db: Session, input: CreateInput, digest: Digest,
                           nicknames: seq<string>, token: Token, now: Timestamp) returns (u: User)
      requires db.Valid() && !Taken(db.Rows(), ByEmail(input.email))
      requires exists j :: 0 <= j < |nicknames| && !Taken(db.Rows(), ByNickname(nicknames[j]))
      modifies db
      ensures db.Valid() && db.snapshots == old(db.snapshots)
      ensures && fresh(u) && db.users == old(db.users) + [u]
              && db.Rows() == old(db.Rows()) + [u.Row()]
              && FirstFreeNickname(old(db.Rows()), nicknames, u.nickname)
              && u.Row() == InsertedRow(old(db.nextUserId),
                   RegistrationDraft(input, digest, u.nickname, |old(db.users)| == 0, token), now)
    {
      var k := PickNickname(db, nicknames);
      var userCount := Count(db);
      var draft := RegistrationDraft(input, digest, nicknames[k], userCount == 0, token);
      assert Insertable(db.Rows(), draft);
      ghost var before := db.Rows();
      var inserted := db.Add(draft, now);
      u := inserted;
      assert FirstFreeNickname(before, nicknames, u.nickname) by {
        assert u.nickname == nicknames[k];
      }
    }

    /** `update`: applies the cleaned patch to the user `userId`, or returns
        null and changes nothing. */
    static method Update(db: Session, userId: UserId, raw: map<PatchField, Option<string>>,
                         schemaValid: bool, actorRole: Option<string>) returns (u: User?)
      requires db.Valid()
      modifies db.users
      ensures db.Valid()
      ensures var plan := PlanUpdate(old(db.Rows()), userId, raw, schemaValid, actorRole);
              && (plan.Rejected? ==> u == null && db.Rows() == old(db.Rows()))
              && (plan.Applied? ==> && plan.index < |db.users| && u == db.users[plan.index]
                                    && db.Rows() == old(db.Rows())[plan.index := plan.row])
    {
      var p := CleanPatch(raw);
      if |p| == 0 {
        return null;
      }
      if !PatchValid(p, schemaValid) {
        return null;
      }
      if Role in p && actorRole != Some(RoleName(ADMIN)) {
        return null;
      }
      var found := FindFirst(db.Rows(), ById(userId));
      if found.None? {
        return null;
      }
      var i := found.value;
      var patched := ApplyPatch(db.Rows()[i], p);
      if ClashesWithOthers(db.Rows(), i, patched) {
        return null;
      }
      u := db.users[i];
      WritePatch(db, i, p);
    }

    /** The UPDATE statement itself: SET the patched columns of user `i`. */
    static method WritePatch(db: Session, i: nat, p: map<PatchField, string>)
      requires db.Valid() && i < |db.users|
      requires Role in p ==> ParseRole(p[Role]).Some?
      requires !ClashesWithOthers(db.Rows(), i, ApplyPatch(db.Rows()[i], p))
      modifies db.users
      ensures db.Valid()
      ensures db.Rows() == old(db.Rows())[i := ApplyPatch(old(db.Rows())[i], p)]
    {
      var u := db.users[i];
      ghost var before := db.Rows();
      var patched := ApplyPatch(u.Row(), p);
      u.email := patched.email;
      u.nickname := patched.nickname;
      u.profile := patched.profile;
      u.role := patched.role;
      assert u.Row() == patched;
      RewriteKeepsValid(db, before, i);
    }

    /** `delete`: removes the user `userId`; false when there is none. */
    static method Delete(db: Session, userId: UserId) returns (found: bool)
      requires db.Valid()
      modifies db
      ensures db.Valid() && db.snapshots == old(db.snapshots)
      ensures match FindFirst(old(db.Rows()), ById(userId))
              case None => !found && db.users == old(db.users) && db.Rows() == old(db.Rows())
              case Some(i) => found && db.Rows() == old(db.Rows()[..i] + db.Rows()[i + 1..])
    {
      var user := GetById(db, userId);
      if user == null {
        return false;
      }
      var i := FindFirst(db.Rows(), ById(userId)).value;
      db.Remove(i);
      found := true;
    }

    /** `login_user`. `verify` is the password checker; `now` the clock. */
    method LoginUser(db: Session, email: string, password: string,
                     verify: (string, Digest) -> bool, now: Timestamp) returns (u: User?)
      requires db.Valid()
      modifies db.users
      ensures db.Valid()
      ensures FindFirst(old(db.Rows()), ByEmail(email)).None? ==> u == null && db.Rows() == old(db.Rows())
      ensures FindFirst(old(db.Rows()), ByEmail(email)).Some? ==>
                var i := FindFirst(old(db.Rows()), ByEmail(email)).value;
                var res := LoginStep(old(db.Rows())[i], verify(password, old(db.Rows())[i].hashedPassword),
                                     maxLoginAttempts, now);
                && db.Rows() == old(db.Rows())[i := res.row]
                && (u != null <==> res.authenticated)
                && (u != null ==> u == db.users[i])
    {
      var user := GetByEmail(db, email);
      if user == null {
        return null;
      }
      ghost var i := FindFirst(db.Rows(), ByEmail(email)).value;
      ghost var before := db.Rows();
      assert user.Row() == before[i];
      if !user.emailVerified {
        assert before[i := before[i]] == before;
        return null;
      }
      if user.isLocked {
        assert before[i := before[i]] == before;
        return null;
      }
      var passwordOk := verify(password, user.hashedPassword);
      RecordAttempt(db, user, i, passwordOk, now);
      u := if passwordOk then user else null;
    }

    /** The two branches of `login_user` once the user may try: a match resets
        the counter and stamps the login, a mismatch counts the failure and
        locks the account at the maximum. */
    method RecordAttempt(db: Session, user: User, ghost i: nat, passwordOk: bool, now: Timestamp)
      requires db.Valid() && i < |db.users| && user == db.users[i]
      requires user.emailVerified && !user.isLocked
      modifies db.users
      ensures db.Valid()
      ensures db.Rows() == old(db.Rows())[i := LoginStep(old(db.Rows())[i], passwordOk, maxLoginAttempts, now).row]
    {
      ghost var before := db.Rows();
      if passwordOk {
        user.failedLoginAttempts := 0;
        user.lastLoginAt := Some(now);
      } else {
        user.failedLoginAttempts := user.failedLoginAttempts + 1;
        if user.failedLoginAttempts >= maxLoginAttempts {
          user.isLocked := true;
        }
      }
      SameKeysKeepValid(db, before, i);
    }

    /** `invite_user`: inserts the invitation stub when the database accepts
        it; it never does, so the rollback path returns false. */
    static method InviteUser(db: Session, email: string, inviterId: UserId, token: Token,
                             now: Timestamp) returns (ok: bool)
      requires db.Valid()
      modifies db
      ensures db.Valid() && db.snapshots == old(db.snapshots)
      ensures ok == Insertable(old(db.Rows()), InvitationStub(email, inviterId, token))
      ensures !ok
      ensures db.users == old(db.users) && db.Rows() == old(db.Rows())
    {
      var stub := InvitationStub(email, inviterId, token);
      var u := db.Add(stub, now);
      ok := u != null;
    }

    /** `is_account_locked`: whether the user with this e-mail is locked. */
    static method IsAccountLocked(db: Session, email: string) returns (locked: bool)
      requires db.Valid()
      ensures locked <==> exists k :: 0 <= k < |db.users| && db.Rows()[k].email == email && db.Rows()[k].isLocked
    {
      var user := GetByEmail(db, email);
      locked := user != null && user.isLocked;
      if !locked && user != null {
        forall k | 0 <= k < |db.users| && db.Rows()[k].email == email
          ensures !db.Rows()[k].isLocked
        {
          FindUnique(db.Rows(), k, ByEmail(email));
        }
      }
    }

    /** `reset_password`: stores the new digest, clears the counter and the
        lock; false when the user does not exist. */
    static method ResetPassword(db: Session, userId: UserId, newPassword: string,
                                hash: string -> Digest) returns (found: bool)
      requires db.Valid()
      modifies db.users
      ensures db.Valid()
      ensures FindFirst(old(db.Rows()), ById(userId)).None? ==> !found && db.Rows() == old(db.Rows())
      ensures FindFirst(old(db.Rows()), ById(userId)).Some? ==>
                var i := FindFirst(old(db.Rows()), ById(userId)).value;
                found && db.Rows() == old(db.Rows())[i := ResetRow(old(db.Rows())[i], hash(newPassword))]
    {
      var digest := hash(newPassword);
      var user := GetById(db, userId);
      if user == null {
        return false;
      }
      ghost var i := FindFirst(db.Rows(), ById(userId)).value;
      WriteReset(db, user, i, digest);
      found := true;
    }

    static method WriteReset(db: Session, user: User, ghost i: nat, digest: Digest)
      requires db.Valid() && i < |db.users| && user == db.users[i]
      modifies db.users
      ensures db.Valid()
      ensures db.Rows() == old(db.Rows())[i := ResetRow(old(db.Rows())[i], digest)]
    {
      ghost var before := db.Rows();
      user.hashedPassword := digest;
      user.failedLoginAttempts := 0;  // the counter starts over
      user.isLocked := false;
      SameKeysKeepValid(db, before, i);
    }

    /** `verify_email_with_token`. */
    static method VerifyEmailWithToken(db: Session, userId: UserId, token: Token) returns (ok: bool)
      requires db.Valid()
      modifies db.users
      ensures db.Valid()
      ensures FindFirst(old(db.Rows()), ById(userId)).None? ==> !ok && db.Rows() == old(db.Rows())
      ensures FindFirst(old(db.Rows()), ById(userId)).Some? ==>
                var i := FindFirst(old(db.Rows()), ById(userId)).value;
                var v := VerifyStep(old(db.Rows())[i], token);
                && (ok <==> v.Some?)
                && db.Rows() == (if v.Some? then old(db.Rows())[i := v.value] else old(db.Rows()))
    {
      var user := GetById(db, userId);
      if user == null {
        return false;
      }
      ghost var i := FindFirst(db.Rows(), ById(userId)).value;
      if user.verificationToken == Some(token) {
        WriteVerified(db, user, i, token);
        return true;
      }
      return false;
    }

    static method WriteVerified(db: Session, user: User, ghost i: nat, token: Token)
      requires db.Valid() && i < |db.users| && user == db.users[i]
      requires user.verificationToken == Some(token)
      modifies db.users
      ensures db.Valid()
      ensures db.Rows() == old(db.Rows())[i := VerifyStep(old(db.Rows())[i], token).value]
    {
      ghost var before := db.Rows();
      ghost var promoted := VerifyStep(before[i], token).value;
      user.emailVerified := true;
      user.verificationToken := None;  // the token is spent
      if user.role == ANONYMOUS {
        user.role := AUTHENTICATED;
      }
      assert user.Row() == promoted;
      SameKeysKeepValid(db, before, i);
    }

    /** `unlock_user_account`. */
    static method UnlockUserAccount(db: Session, userId: UserId) returns (ok: bool)
      requires db.Valid()
      modifies db.users
      ensures db.Valid()
      ensures FindFirst(old(db.Rows()), ById(userId)).None? ==> !ok && db.Rows() == old(db.Rows())
      ensures FindFirst(old(db.Rows()), ById(userId)).Some? ==>
                var i := FindFirst(old(db.Rows()), ById(userId)).value;
                var v := UnlockStep(old(db.Rows())[i]);
                && (ok <==> v.Some?)
                && db.Rows() == (if v.Some? then old(db.Rows())[i := v.value] else old(db.Rows()))
    {
      var user := GetById(db, userId);
      if user != null && user.isLocked {
        ghost var i := FindFirst(db.Rows(), ById(userId)).value;
        WriteUnlock(db, user, i);
        return true;
      }
      return false;
    }

    static method WriteUnlock(db: Session, user: User, ghost i: nat)
      requires db.Valid() && i < |db.users| && user == db.users[i]
      requires user.isLocked
      modifies db.users
      ensures db.Valid()
      ensures db.Rows() == old(db.Rows())[i := UnlockStep(old(db.Rows())[i]).value]
    {
      ghost var before := db.Rows();
      user.isLocked := false;
      user.failedLoginAttempts := 0;  // the counter starts over
      SameKeysKeepValid(db, before, i);
    }
  }

  function Min(a: int, b: int): int
  {
    if a <= b then a else b
  }

  /** The row after `n` login attempts in a row with a wrong password. */
  function FailedAttempts(r: UserRow, n: nat, maxAttempts: int, now: Timestamp): UserRow
    decreases n
  {
    if n == 0 then r else FailedAttempts(LoginStep(r, false, maxAttempts, now).row, n - 1, maxAttempts, now)
  }

  /** Wrong passwords leave a locked account as it is. */
  lemma {:induction false} LockedStaysLocked(r: UserRow, n: nat, maxAttempts: int, now: Timestamp)
    requires r.isLocked
    ensures FailedAttempts(r, n, maxAttempts, now) == r
    decreases n
  {
    if n > 0 {
      LockedStaysLocked(r, n - 1, maxAttempts, now);
    }
  }

  /** Starting below the limit, `n` wrong passwords raise the counter by `n`
      up to the limit, and the account is locked exactly when the limit is
      reached. */
  lemma {:induction false} LockoutAfterFailures(r: UserRow, n: nat, maxAttempts: int, now: Timestamp)
    requires r.emailVerified && !r.isLocked && r.failedLoginAttempts < maxAttempts
    ensures var r' := FailedAttempts(r, n, maxAttempts, now);
            && r'.failedLoginAttempts == Min(r.failedLoginAttempts + n, maxAttempts)
            && (r'.isLocked <==> r.failedLoginAttempts + n >= maxAttempts)
    decreases n
  {
    if n > 0 {
      var r1 := LoginStep(r, false, maxAttempts, now).row;
      if r1.isLocked {
        LockedStaysLocked(r1, n - 1, maxAttempts, now);
      } else {
        LockoutAfterFailures(r1, n - 1, maxAttempts, now);
      }
    }
  }

  /** A verification token works once: after it is used, no token matches. */
  lemma TokenIsSingleUse(r: UserRow, token: Token, other: Token)
    requires VerifyStep(r, token).Some?
    ensures VerifyStep(VerifyStep(r, token).value, other).None?
  {
  }

  /** After an unlock, a verified user with the right password gets in, and a
      wrong password counts as the first failure. */
  lemma UnlockReopensLogin(r: UserRow, passwordOk: bool, maxAttempts: int, now: Timestamp)
    requires UnlockStep(r).Some?
    ensures LoginStep(UnlockStep(r).value, passwordOk, maxAttempts, now).authenticated <==> r.emailVerified && passwordOk
    ensures r.emailVerified && !passwordOk ==>
      LoginStep(UnlockStep(r).value, passwordOk, maxAttempts, now).row.failedLoginAttempts == 1
  {
  }

  /** After a reset, a verified user logs in with the new password. */
  lemma ResetReopensLogin(r: UserRow, digest: Digest, maxAttempts: int, now: Timestamp)
    ensures LoginStep(ResetRow(r, digest), true, maxAttempts, now).authenticated <==> r.emailVerified
  {
  }
}
