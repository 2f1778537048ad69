# User management and retention analytics, modelled in Dafny

This project models the core of a user-management service and proves properties of it:

- the `users` and `retention_analytics` tables;
- the user lifecycle service: registration, lookups, updates with role authorisation, deletion, paging, login with lockout, invitation, password reset, e-mail verification and unlocking;
- the retention analytics service.

The database session is an object that owns two things:

- `Store.Session.users`, a sequence of live `User` objects whose fields the services assign in place;
- `Store.Session.snapshots`, the retention rows.

`Session.Valid()` holds the constraints the database enforces: the primary key, e-mail and nickname are UNIQUE, and `conversion_rate` fits its `VARCHAR(10)`. The NOT NULL and foreign-key checks of an insert are `Store.Insertable`.

Each service operation is one atomic method over the session. Every state change is specified against a pure step on the affected row:

- `LoginStep`
- `ResetRow`
- `VerifyStep`
- `UnlockStep`
- `PlanUpdate`/`ApplyPatch`
- `BuildSnapshot`

The lemmas relate these steps to each other and to the analytics counts.

The outside world enters as parameters:

- the password hasher (`hash`) and checker (`verify`);
- the generated verification token;
- the successive outputs of the nickname generator;
- the verdict of the request schema (`schemaValid`);
- the clock (`now`, in whole seconds);
- `settings.max_login_attempts`, a constructor argument of `UserService.UserService`.

Behaviour of the code worth noting:

- `create` generates a verification token for every new user, including the first one, who becomes ADMIN and is already verified (`app/services/user_service.py:80`).
- `last_login_at < cutoff` is false for a NULL login time. A user who never logged in is therefore counted in no inactivity window (`AnalyticsService.NeverLoggedInExcluded`).
- `invite_user` builds a user with no nickname, password or role. Those columns are NOT NULL (`app/models/user_model.py:57,65,75`), so the commit is refused. The rollback branch runs: the call returns false and nothing changes (`UserService.InvitationStubRejected`, `UserService.UserService.InviteUser`).
- Five source defects are modelled as evidently intended, not as their crash or omission:
  - `calculate_retention_metrics` reads the clock through `datetime.timezone.utc` (line 23), which raises.
  - It uses `timedelta` without importing it (line 37).
  - `RetentionAnalytics` declares only the 24-hour inactivity column, but the service writes four and the tests read four. The snapshot carries all four windows.
  - The role and window counts call `.where(...)` on `func.count(User.id)` (`app/services/analytics_service.py:26-27,37-40`). SQLAlchemy's SQL function objects are not SELECT statements, so this does not build the filtered count. The model takes the intended count of users matching the condition (`AnalyticsService.CountRole`, `AnalyticsService.CountInactive`).
  - `get_retention_data` runs a Core table `select()` and then calls `.scalars().all()` (`app/services/analytics_service.py:58-61`). On a Core select, `.scalars()` yields only the first column, so the code returns the snapshot ids, newest first. The model returns the whole snapshot rows, newest first (`AnalyticsService.GetRetentionData`).

## Model

| member | source | states |
|---|---|---|
| UserModel.ParseRole | app/models/user_model.py:12-17 | a string names a role exactly when it is one of the four enum values; the role found has that value |
| UserModel.RoleNameRoundTrip | app/models/user_model.py:12-17 | every role's value reads back as that role |
| UserModel.InsertedRow | app/models/user_model.py:56-79 | a committed user takes its defaults: zero failed attempts, never logged in, not locked, not professional with no status change time, not converted, created and updated at the insert time; the caller's e-mail, nickname, profile, role, password digest, verification flag, token and inviter |
| UserModel.User.constructor | app/models/user_model.py:56-79 | a new user object's row is the inserted row with those defaults |
| UserModel.User.LockAccount | app/models/user_model.py:86-87 | sets `is_locked` and changes no other column |
| UserModel.User.UnlockAccount | app/models/user_model.py:89-90 | clears `is_locked` and changes no other column |
| UserModel.User.VerifyEmail | app/models/user_model.py:92-93 | sets `email_verified` and changes no other column |
| UserModel.User.HasRole | app/models/user_model.py:95-96 | `has_role(r)` holds exactly when the user's stored role is `r` |
| UserModel.ExactlyOneRole | app/models/user_model.py:95-96 | `has_role(r)` holds exactly for the user's one role |
| UserModel.User.UpdateProfessionalStatus | app/models/user_model.py:98-101 | sets the professional flag, stamps the change time, and changes nothing else |
| UserModel.User.UpdateLastLogin | app/models/user_model.py:104-106 | stamps the login time and changes nothing else |
| Store.FindFirst | app/services/user_service.py:34-38 | the lookup finds a user exactly when one matches the filter; it returns the first match in table order |
| Store.FindUnique | app/models/user_model.py:56-58 | under the UNIQUE constraints, a lookup by id, e-mail or nickname finds the one row holding that key |
| Store.ReplaceKeepsUnique | app/models/user_model.py:56-58 | rewriting a row keeps the UNIQUE constraints when the new values clash with no other row |
| Store.Session.Add | app/models/user_model.py:56-77 | an insert commits exactly when the NOT NULL columns are set, the e-mail and nickname are unused and the inviter exists; it then appends the row with the next key, and otherwise nothing changes |
| Store.Session.Remove | app/services/user_service.py:161-162 | deleting a user removes exactly that row and keeps the order of the others |
| Store.Session.AddSnapshot | app/services/analytics_service.py:52-53 | a snapshot is appended under the next key exactly when its rate fits the ten-character column; users and earlier snapshots are kept |
| UserService.CleanPatch | app/services/user_service.py:110 | the cleaned patch holds exactly the entries whose value is not None, with those values |
| UserService.ApplyPatch | app/services/user_service.py:130-135 | the UPDATE changes only e-mail, nickname, profile and role; all other columns keep their values |
| UserService.ApplyPatchFields | app/services/user_service.py:130-135 | every patched field reads back as its new value; every field not in the patch keeps its old value |
| UserService.PatchValid | app/services/user_service.py:116-120 | the schema accepts a cleaned patch exactly when the schema verdict holds and any role it names is one of the four enum values |
| UserService.PlanUpdate | app/services/user_service.py:108-152 | an empty patch, a role change by a non-ADMIN actor, or an unknown id is rejected; a non-empty, valid, authorised patch for an existing id that clashes with no other row is applied; an accepted update rewrites the one row with that id and keeps e-mails and nicknames unique |
| UserService.LoginStep | app/services/user_service.py:177-196 | login succeeds exactly for a verified, unlocked user with the right password; an unverified or locked user is unchanged; success resets the counter and stamps the login; a mismatch adds exactly one failure and locks exactly when the count reaches the maximum |
| UserService.LockedStaysLocked | app/services/user_service.py:182-183 | wrong passwords leave a locked account unchanged |
| UserService.LockoutAfterFailures | app/services/user_service.py:190-193 | from below the limit, n wrong passwords give min(start + n, max) failures, locked exactly when start + n reaches max |
| UserService.ResetRow | app/services/user_service.py:247-249 | a reset stores the new digest, zeroes the counter, clears the lock, and changes nothing else |
| UserService.ResetReopensLogin | app/services/user_service.py:247-249 | after a reset, a verified user logs in with the new password, even if the account was locked |
| UserService.VerifyStep | app/services/user_service.py:261-266 | verification succeeds exactly when the token matches; it sets `email_verified`, clears the token, promotes ANONYMOUS to AUTHENTICATED, leaves other roles, and changes nothing else |
| UserService.TokenIsSingleUse | app/services/user_service.py:261-263 | once a token has verified a user, no token verifies that user again |
| UserService.UnlockStep | app/services/user_service.py:289-291 | an unlock takes effect exactly when the user is locked; it clears the lock and the counter and changes nothing else |
| UserService.UnlockReopensLogin | app/services/user_service.py:289-291 | after an unlock, a verified user gets in with the right password, and a wrong one counts as the first failure |
| UserService.InvitationStub | app/services/user_service.py:217-221 | the invitation user carries only the e-mail, the inviter and the token: no nickname, password, role or profile, and an unverified e-mail |
| UserService.InvitationStubRejected | app/services/user_service.py:217-223 | the invitation user, which has no nickname, password or role, is never accepted by the database |
| UserService.UserService.constructor | app/services/user_service.py:192 | the service keeps `max_login_attempts` as given |
| UserService.UserService.FetchUser | app/services/user_service.py:34-38 | returns null exactly when no user matches the filter; otherwise it returns the stored object of the first match |
| UserService.UserService.GetById | app/services/user_service.py:40-42 | returns null exactly when no user has the id; otherwise the user with it |
| UserService.UserService.GetByNickname | app/services/user_service.py:44-46 | returns null exactly when no user has the nickname; otherwise a user with it |
| UserService.UserService.GetByEmail | app/services/user_service.py:48-50 | returns null exactly when no user has the e-mail; otherwise the first user with it |
| UserService.UserService.Count | app/services/user_service.py:273-284 | returns the number of rows in `users` |
| UserService.UserService.ListUsers | app/services/user_service.py:165-169 | a negative offset or limit gives the empty list; otherwise the users at positions skip to skip + limit, clipped to the table |
| UserService.UserService.PickNickname | app/services/user_service.py:67-71 | the regeneration loop stops at the first generated nickname no user holds |
| UserService.UserService.Create | app/services/user_service.py:52-92 | fails and changes nothing exactly on a schema violation or a used e-mail; otherwise appends exactly one user: the inserted row of the registration draft, with the hashed password and the first generated nickname no user holds, ADMIN exactly when the store was empty |
| UserService.UserService.InsertRegistration | app/services/user_service.py:67-84 | with a free e-mail, picks the first free nickname, chooses the role by the user count, and always commits exactly one new row |
| UserService.RegistrationDraft | app/services/user_service.py:62-80 | the new user is ADMIN with a verified e-mail exactly when it is the first; otherwise it is ANONYMOUS and unverified; it always has a token, no inviter, and the caller's e-mail, profile, nickname and digest |
| UserService.RegisteredUser | app/services/user_service.py:62-84 | a registered user starts with zero failures, unlocked, not professional, not converted, never logged in; it is ADMIN and verified exactly when first, and it carries the token and the caller's profile |
| UserService.UserService.Update | app/services/user_service.py:94-152 | the table changes exactly as `PlanUpdate` decides: a rejection returns null and changes nothing; an accepted patch rewrites only the target row and returns that user |
| UserService.UserService.WritePatch | app/services/user_service.py:129-137 | the UPDATE replaces row i with the patched row, leaves all other rows alone, and keeps the constraints |
| UserService.UserService.Delete | app/services/user_service.py:155-163 | returns false and changes nothing for an unknown id; otherwise it removes exactly the user with that id |
| UserService.UserService.LoginUser | app/services/user_service.py:176-196 | returns null and changes nothing for an unknown e-mail; otherwise the user's row becomes the `LoginStep` result, and the user is returned exactly when authenticated |
| UserService.UserService.RecordAttempt | app/services/user_service.py:184-193 | writing the success or failure branch into the user object changes that user's row to the `LoginStep` result, leaves the other rows alone, and keeps the constraints |
| UserService.UserService.InviteUser | app/services/user_service.py:198-234 | returns false and leaves users and snapshots unchanged |
| UserService.UserService.IsAccountLocked | app/services/user_service.py:236-239 | true exactly when a user with that e-mail exists and is locked |
| UserService.UserService.ResetPassword | app/services/user_service.py:242-253 | returns false and changes nothing for an unknown id; otherwise it applies `ResetRow` to that user only |
| UserService.UserService.WriteReset | app/services/user_service.py:247-249 | the three assignments change that user's row to `ResetRow` and leave the other rows alone |
| UserService.UserService.VerifyEmailWithToken | app/services/user_service.py:255-271 | returns false and changes nothing for an unknown id or a wrong token; otherwise it applies `VerifyStep` to that user only and returns true |
| UserService.UserService.WriteVerified | app/services/user_service.py:262-266 | the assignments and the promotion change that user's row to the `VerifyStep` result and leave the other rows alone |
| UserService.UserService.UnlockUserAccount | app/services/user_service.py:286-295 | returns true exactly when the user exists and is locked; only then does it apply `UnlockStep` to that user; otherwise nothing changes |
| UserService.UserService.WriteUnlock | app/services/user_service.py:290-291 | the two assignments change that user's row to the `UnlockStep` result and leave the other rows alone |
| AnalyticsService.CountRole | app/services/analytics_service.py:26-27 | counts the users holding a role; never more than the table |
| AnalyticsService.RoleCountsPartition | app/models/user_model.py:65 | the four role counts add up to the number of users |
| AnalyticsService.CountRoleUpdate | app/services/analytics_service.py:26-27 | rewriting one user moves it from its old role's count to its new role's count |
| AnalyticsService.VerificationConverts | app/services/user_service.py:265-266 | verifying an ANONYMOUS user lowers the anonymous count by one and raises the authenticated count by one |
| AnalyticsService.CountInactive | app/services/analytics_service.py:37-40 | counts users whose last login is strictly before the cutoff |
| AnalyticsService.CountInactiveMonotone | app/services/analytics_service.py:37-40 | an earlier cutoff never counts more users |
| AnalyticsService.NeverLoggedInExcluded | app/services/analytics_service.py:37-40 | users with no login time are in no window |
| AnalyticsService.LoginLeavesWindow | app/services/analytics_service.py:12-17 | stamping a login at `now` takes that user out of every window whose cutoff is not after `now`, and out of no other |
| AnalyticsService.RateHundredths | app/services/analytics_service.py:30-34 | the rate in hundredths of a percent lies within half a hundredth of the exact ratio, is at most 100.00, and rounds a tie to the even neighbour |
| AnalyticsService.FormatRate | app/services/analytics_service.py:31 | the two-decimal rendering ends in `.dd%` and fits ten characters |
| AnalyticsService.FormatRateRoundTrip | app/services/analytics_service.py:31 | a rendered rate reads back as the same number of hundredths |
| AnalyticsService.ConversionRate | app/services/analytics_service.py:30-34 | the rate is `"0%"` exactly when there are no anonymous or authenticated users, and it always fits the column |
| AnalyticsService.ConversionRateRoundTrip | app/services/analytics_service.py:30-34 | the stored text reads back as the rounded ratio, or 0 when there are no users |
| AnalyticsService.TwoThirdsConverted | tests/test_services/test_analytics_service.py:40-48 | 5 anonymous and 10 authenticated users give `"66.67%"` |
| AnalyticsService.BuildSnapshot | app/services/analytics_service.py:21-51 | the snapshot holds the two role counts, the conversion rate of those counts, and for each window the number of users whose last login is strictly before the run time minus 24 hours, 48 hours, 1 week or 365 days; the windows are nested, 1 year ≤ 1 week ≤ 48 hours ≤ 24 hours ≤ all users, and exclude every user who never logged in; the rate fits the column; it is stamped with the run time |
| AnalyticsService.EmptyStoreSnapshot | tests/test_services/test_analytics_service.py:136-147 | an empty store gives zero counts in every field and `"0%"` |
| AnalyticsService.BuildSnapshotAsWritten | app/models/user_model.py:116 | as written, every snapshot carries the one time at which the model was loaded |
| AnalyticsService.StampIgnoresRunTime | app/models/user_model.py:116 | as written, runs at different times get equal stamps; stamped with the run time, they are ordered |
| AnalyticsService.InsertNewest | app/services/analytics_service.py:58-61 | inserting into a newest-first list keeps it newest-first and adds exactly that snapshot |
| AnalyticsService.NewestFirst | app/services/analytics_service.py:58-61 | the read is ordered by timestamp, newest first, and is a permutation of the stored snapshots |
| AnalyticsService.NewestFirstSameElements | app/services/analytics_service.py:58-61 | a snapshot is in the read exactly when it is stored |
| AnalyticsService.LatestRunFirst | app/services/analytics_service.py:58-61 | when the last run is stamped no earlier than the others, the read returns it first |
| AnalyticsService.LogUserActivity | app/services/analytics_service.py:9-17 | stamps the login time of the user with that id, changes nothing else, and does nothing for an unknown id |
| AnalyticsService.WriteLastLogin | app/services/analytics_service.py:14-15 | the assignment stamps that user's login time and leaves every other column and row alone |
| AnalyticsService.CalculateRetentionMetrics | app/services/analytics_service.py:20-53 | appends exactly one snapshot, computed from the users at the run time; users and earlier snapshots are unchanged |
| AnalyticsService.GetRetentionData | app/services/analytics_service.py:55-61 | returns every stored snapshot, newest first, and modifies nothing |

## Left out

- Async sessions, explicit commit and rollback, and the `_execute_query` error handler are not modelled as such. Each operation is one atomic step. The database errors that are modelled:
  - a negative OFFSET or LIMIT in `list_users`, which gives `[]`;
  - a UNIQUE clash at the commit of `update`, which gives None;
  - the NOT NULL, UNIQUE and foreign-key checks of an insert.
- Password hashing and checking, token generation, nickname generation and the clock are foreign calls. They are parameters. The nickname candidates must include one that is free; the source's loop would not end otherwise.
- E-mail delivery and the invitation link built from `server_base_url` are I/O and are left out. So are logging and `__repr__`.
- The `UserCreate` and `UserUpdate` schemas are not part of this model. Their verdict is the boolean `schemaValid`. The only schema rule modelled is that a role must be one of the enum values.
- `register_user` only forwards to `create`. `UserService.UserService.Create` is its model.
- UUID primary keys are modelled as a counter, `nextUserId`/`nextSnapshotId`, so every key is fresh.
- The `onupdate` stamp of `updated_at` is not modelled; only the insert sets it.
- The string widths of the `users` columns are not enforced. Only the ten-character `conversion_rate` is.
- `first()` and unordered SELECTs have no defined row order in SQL. The model uses table (insertion) order.
- `ORDER BY timestamp DESC` leaves equal timestamps in no defined order. The model puts the later-inserted snapshot first.
- AnalyticsService.RateHundredths: rounds the exact ratio half-to-even. Python formats the double `auth / total * 100`. The two agree except at exact half-hundredth ties that a double cannot represent, which occur when the reduced denominator of the ratio is 160, 800, 4000 or 20000.
- UserService.UserService.Delete: does not model the self-referencing `invited_by_user_id` key. In this core no committed user can have an inviter: `create` sets none, and the invitation insert is always refused.
- `is_converted` is never changed by the modelled core; the model only gives it its default.
- `update` refreshes the returned object from the database. The model returns the same object, whose fields the UPDATE has already written.

## Findings

| source | as written | input that shows it | evidently intended | confidence | as-written member | corrected member |
|---|---|---|---|---|---|---|
| app/models/user_model.py:116 | the timestamp column default `datetime.now(timezone.utc)` is evaluated once, when the class is defined, so every snapshot gets that time | load the model at time 0, run the metrics at times 100 and 200: both snapshots are stamped 0, and the newest-first read cannot tell them apart | stamp each snapshot with the time of its run (a callable default) | not executed; high, by Python's evaluation of default arguments | AnalyticsService.StampIgnoresRunTime | AnalyticsService.LatestRunFirst |
