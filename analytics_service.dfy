/** Retention analytics over the `users` table: role counts, the conversion
    rate rendered as text, four nested inactivity windows, the snapshot a run
    appends to `retention_analytics`, and the newest-first read-back. */
module AnalyticsService {
  import opened UserModel
  import opened Store
  import opened UserService

  // ---------------------------------------------------------------------
  // Counting queries
  // ---------------------------------------------------------------------

  /** `count(User.id) WHERE role = role`. */
  function CountRole(rows: seq<UserRow>, role: UserRole): (n: nat)
    ensures n <= |rows|
  {
    if |rows| == 0 then 0
    else (if rows[0].role == role then 1 else 0) + CountRole(rows[1..], role)
  }

  /** Every row holds exactly one role, so the four role counts add up to the
      number of users. */
  lemma {:induction false} RoleCountsPartition(rows: seq<UserRow>)
    ensures CountRole(rows, ANONYMOUS) + CountRole(rows, AUTHENTICATED)
          + CountRole(rows, MANAGER) + CountRole(rows, ADMIN) == |rows|
  {
    if |rows| > 0 {
      RoleCountsPartition(rows[1..]);
    }
  }

  /** Replacing one row moves it from the count of its old role to the count
      of its new one; all other counts stay. */
  lemma {:induction false} CountRoleUpdate(rows: seq<UserRow>, i: nat, r: UserRow, role: UserRole)
    requires i < |rows|
    ensures CountRole(rows[i := r], role) + (if rows[i].role == role then 1 else 0)
         == CountRole(rows, role) + (if r.role == role then 1 else 0)
  {
    if i == 0 {
      assert rows[i := r][1..] == rows[1..];
    } else {
      CountRoleUpdate(rows[1..], i - 1, r, role);
      assert rows[i := r][1..] == rows[1..][i - 1 := r];
    }
  }

  /** Verifying the e-mail of an ANONYMOUS user converts it: one anonymous
      user fewer, one authenticated user more. */
  lemma VerificationConverts(rows: seq<UserRow>, i: nat, token: Token)
    requires i < |rows| && rows[i].role == ANONYMOUS && VerifyStep(rows[i], token).Some?
    ensures CountRole(rows[i := VerifyStep(rows[i], token).value], ANONYMOUS) + 1 == CountRole(rows, ANONYMOUS)
    ensures CountRole(rows[i := VerifyStep(rows[i], token).value], AUTHENTICATED) == CountRole(rows, AUTHENTICATED) + 1
  {
    var r := VerifyStep(rows[i], token).value;
    CountRoleUpdate(rows, i, r, ANONYMOUS);
    CountRoleUpdate(rows, i, r, AUTHENTICATED);
  }

  /** `last_login_at < cutoff` is true only for a stored login time; a NULL
      comparison is not true, so users who never logged in are never
      counted. */
  predicate InactiveSince(r: UserRow, cutoff: Timestamp)
  {
    r.lastLoginAt.Some? && r.lastLoginAt.value < cutoff
  }

  /** `count(User.id) WHERE last_login_at < cutoff`. */
  function CountInactive(rows: seq<UserRow>, cutoff: Timestamp): (n: nat)
    ensures n <= |rows|
  {
    if |rows| == 0 then 0
    else (if InactiveSince(rows[0], cutoff) then 1 else 0) + CountInactive(rows[1..], cutoff)
  }

  function CountNeverLoggedIn(rows: seq<UserRow>): (n: nat)
    ensures n <= |rows|
  {
    if |rows| == 0 then 0
    else (if rows[0].lastLoginAt.None? then 1 else 0) + CountNeverLoggedIn(rows[1..])
  }

  /** An earlier cutoff is a narrower window. */
  lemma {:induction false} CountInactiveMonotone(rows: seq<UserRow>, c1: Timestamp, c2: Timestamp)
    requires c1 <= c2
    ensures CountInactive(rows, c1) <= CountInactive(rows, c2)
  {
    if |rows| > 0 {
      CountInactiveMonotone(rows[1..], c1, c2);
    }
  }

  /** Users with no login time fall outside every window. */
  lemma {:induction false} NeverLoggedInExcluded(rows: seq<UserRow>, cutoff: Timestamp)
    ensures CountInactive(rows, cutoff) + CountNeverLoggedIn(rows) <= |rows|
  {
    if |rows| > 0 {
      NeverLoggedInExcluded(rows[1..], cutoff);
    }
  }

  /** A login stamped at `now` takes the user out of every window whose
      cutoff is not after `now`. */
  lemma {:induction false} LoginLeavesWindow(rows: seq<UserRow>, i: nat, now: Timestamp, cutoff: Timestamp)
    requires i < |rows| && cutoff <= now
    ensures CountInactive(rows[i := rows[i].(lastLoginAt := Some(now))], cutoff)
          + (if InactiveSince(rows[i], cutoff) then 1 else 0) == CountInactive(rows, cutoff)
  {
    var r := rows[i].(lastLoginAt := Some(now));
    if i == 0 {
      assert rows[i := r][1..] == rows[1..];
    } else {
      LoginLeavesWindow(rows[1..], i - 1, now, cutoff);
      assert rows[i := r][1..] == rows[1..][i - 1 := r];
      assert rows[1..][i - 1] == rows[i];
    }
  }

  /** The windows, in seconds. */
  const Day: int := 24 * 60 * 60
  const Week: int := 7 * Day
  const Year: int := 365 * Day

  // ---------------------------------------------------------------------
  // Conversion rate
  // ---------------------------------------------------------------------

  /** `authenticated / (anonymous + authenticated) * 100` rounded to
      hundredths of a percent, to the nearest and a tie to the even
      neighbour, as `:.2f` rounds an exactly representable value. */
  function RateHundredths(anonymous: nat, authenticated: nat): (h: nat)
    requires anonymous + authenticated > 0
    ensures h <= 10000
    ensures (2 * h - 1) * (anonymous + authenticated) <= 20000 * authenticated
    ensures 20000 * authenticated <= (2 * h + 1) * (anonymous + authenticated)
    ensures (2 * h - 1) * (anonymous + authenticated) == 20000 * authenticated ==> h % 2 == 0
    ensures 20000 * authenticated == (2 * h + 1) * (anonymous + authenticated) ==> h % 2 == 0
  {
    var t := anonymous + authenticated;
    var q := 10000 * authenticated;
    var lo := q / t;
    var rem := q % t;
    DivMod(q, t);
    var h := if 2 * rem > t then lo + 1
             else if 2 * rem < t then lo
             else if lo % 2 == 0 then lo else lo + 1;
    HalfEvenBounds(authenticated, t, lo, rem, h);
    h
  }

  /** The arithmetic behind `RateHundredths`, with `lo` and `rem` the
      quotient and remainder of `10000 * auth` by `t`. */
  lemma HalfEvenBounds(auth: nat, t: nat, lo: nat, rem: nat, h: nat)
    requires 0 < t && auth <= t
    requires 10000 * auth == lo * t + rem && rem < t
    requires h == (if 2 * rem > t then lo + 1 else if 2 * rem < t then lo else if lo % 2 == 0 then lo else lo + 1)
    ensures h <= 10000
    ensures (2 * h - 1) * t <= 20000 * auth <= (2 * h + 1) * t
    ensures (2 * h - 1) * t == 20000 * auth ==> h % 2 == 0
    ensures 20000 * auth == (2 * h + 1) * t ==> h % 2 == 0
  {
    var p := lo * t;
    if lo > 10000 {
      MulMonotone(10001, lo, t);
      assert false;
    }
    if lo == 10000 {
      assert p == 10000 * t;
      assert rem == 0;
    }
    OddMultiples(h, t);
    if h == lo + 1 {
      assert h * t == p + t;
    }
  }

  lemma DivMod(q: nat, t: nat)
    requires 0 < t
    ensures q == q / t * t + q % t && 0 <= q % t < t && 0 <= q / t
  {
  }

  lemma MulMonotone(a: nat, b: nat, t: nat)
    requires a <= b
    ensures a * t <= b * t
  {
  }

  lemma OddMultiples(h: int, t: int)
    ensures (2 * h - 1) * t == 2 * (h * t) - t
    ensures (2 * h + 1) * t == 2 * (h * t) + t
  {
  }

  /** The decimal digit `d` as a character. */
  function Digit(d: nat): (c: char)
    requires d < 10
    ensures '0' <= c <= '9'
  {
    ('0' as int + d) as char
  }

  predicate IsDigit(c: char)
  {
    '0' <= c <= '9'
  }

  function DigitValue(c: char): (d: nat)
    requires IsDigit(c)
    ensures d < 10
  {
    c as int - '0' as int
  }

  predicate AllDigits(s: string)
  {
    forall k :: 0 <= k < |s| ==> IsDigit(s[k])
  }

  /** Decimal notation of `n` without leading zeros. */
  function NatToString(n: nat): (s: string)
    ensures 1 <= |s| && AllDigits(s)
    ensures n < 10 ==> |s| == 1
    ensures n < 100 ==> |s| <= 2
    ensures n < 1000 ==> |s| <= 3
  {
    if n < 10 then [Digit(n)] else NatToString(n / 10) + [Digit(n % 10)]
  }

  /** The number a string of decimal digits denotes. */
  function DigitsValue(s: string): nat
    requires AllDigits(s)
  {
    if |s| == 0 then 0 else 10 * DigitsValue(s[..|s| - 1]) + DigitValue(s[|s| - 1])
  }

  lemma {:induction false} NatToStringRoundTrip(n: nat)
    ensures DigitsValue(NatToString(n)) == n
  {
    var s := NatToString(n);
    if n >= 10 {
      NatToStringRoundTrip(n / 10);
      assert s[..|s| - 1] == NatToString(n / 10);
    }
  }

  /** `f"{rate:.2f}%"` for a rate held in hundredths of a percent. */
  function FormatRate(h: nat): (s: string)
    requires h <= 10000
    ensures |s| <= ConversionRateWidth
    ensures 5 <= |s| && s[|s| - 1] == '%' && s[|s| - 4] == '.'
  {
    NatToString(h / 100) + "." + [Digit(h % 100 / 10), Digit(h % 10)] + "%"
  }

  /** Reads back a rendered rate, `"<digits>%"` or `"<digits>.<d><d>%"`, as
      hundredths of a percent. */
  function ParseRate(s: string): (h: Option<nat>)
    ensures h.Some? ==> 2 <= |s| && s[|s| - 1] == '%'
  {
    if |s| < 2 || s[|s| - 1] != '%' then None
    else
      var body := s[..|s| - 1];
      if AllDigits(body) then Some(100 * DigitsValue(body))
      else if |body| >= 4 && body[|body| - 3] == '.' && AllDigits(body[..|body| - 3])
              && IsDigit(body[|body| - 2]) && IsDigit(body[|body| - 1]) then
        Some(100 * DigitsValue(body[..|body| - 3]) + 10 * DigitValue(body[|body| - 2]) + DigitValue(body[|body| - 1]))
      else None
  }

  lemma FormatRateRoundTrip(h: nat)
    requires h <= 10000
    ensures ParseRate(FormatRate(h)) == Some(h)
  {
    var ip := NatToString(h / 100);
    var s := FormatRate(h);
    var body := s[..|s| - 1];
    assert body == ip + "." + [Digit(h % 100 / 10), Digit(h % 10)];
    assert !IsDigit(body[|ip|]);
    assert body[..|body| - 3] == ip;
    NatToStringRoundTrip(h / 100);
  }

  /** The conversion-rate column: `"0%"` when there are no anonymous or
      authenticated users, otherwise the rounded rate with two decimals. */
  function ConversionRate(anonymous: nat, authenticated: nat): (s: string)
    ensures |s| <= ConversionRateWidth
    ensures anonymous + authenticated == 0 <==> s == "0%"
  {
    if anonymous + authenticated > 0 then FormatRate(RateHundredths(anonymous, authenticated))
    else "0%"
  }

  /** The rendered rate reads back as the rounded ratio, or 0 for no users. */
  lemma ConversionRateRoundTrip(anonymous: nat, authenticated: nat)
    ensures anonymous + authenticated == 0 ==> ParseRate(ConversionRate(anonymous, authenticated)) == Some(0)
    ensures anonymous + authenticated > 0 ==>
      ParseRate(ConversionRate(anonymous, authenticated)) == Some(RateHundredths(anonymous, authenticated))
  {
    if anonymous + authenticated > 0 {
      FormatRateRoundTrip(RateHundredths(anonymous, authenticated));
    } else {
      assert ConversionRate(anonymous, authenticated)[..1] == "0";
      assert DigitsValue("0") == 10 * DigitsValue("") + DigitValue('0');
    }
  }

  /** 5 anonymous and 10 authenticated users give `"66.67%"`. */
  lemma TwoThirdsConverted()
    ensures ConversionRate(5, 10) == "66.67%"
  {
    assert RateHundredths(5, 10) == 6667;
    assert NatToString(66) == "66";
  }

  // ---------------------------------------------------------------------
  // Snapshots
  // ---------------------------------------------------------------------

  /** The snapshot one run computes over `rows` at time `now`, before the
      table assigns its primary key. Every inactivity window is measured back
      from `now`, and the snapshot is stamped with `now`. */
  function BuildSnapshot(rows: seq<UserRow>, now: Timestamp): (s: RetentionAnalytics)
    ensures s.totalAnonymousUsers == CountRole(rows, ANONYMOUS)
    ensures s.totalAuthenticatedUsers == CountRole(rows, AUTHENTICATED)
    ensures s.conversionRate == ConversionRate(s.totalAnonymousUsers, s.totalAuthenticatedUsers)
    ensures s.inactiveUsers24hr == CountInactive(rows, now - Day)
    ensures s.inactiveUsers48hr == CountInactive(rows, now - 2 * Day)
    ensures s.inactiveUsers1wk == CountInactive(rows, now - Week)
    ensures s.inactiveUsers1yr == CountInactive(rows, now - Year)
    ensures s.inactiveUsers1yr <= s.inactiveUsers1wk <= s.inactiveUsers48hr <= s.inactiveUsers24hr <= |rows|
    ensures s.inactiveUsers24hr + CountNeverLoggedIn(rows) <= |rows|
    ensures |s.conversionRate| <= ConversionRateWidth
    ensures s.timestamp == now
  {
    var snapshot := Snapshot(rows, now, now);
    CountInactiveMonotone(rows, now - Year, now - Week);
    CountInactiveMonotone(rows, now - Week, now - 2 * Day);
    CountInactiveMonotone(rows, now - 2 * Day, now - Day);
    NeverLoggedInExcluded(rows, now - Day);
    snapshot
  }

  /** The row values shared by both stampings: counts measured at `now`,
      timestamp `stamp`. */
  function Snapshot(rows: seq<UserRow>, now: Timestamp, stamp: Timestamp): RetentionAnalytics
  {
    var anonymous := CountRole(rows, ANONYMOUS);
    var authenticated := CountRole(rows, AUTHENTICATED);
    RetentionAnalytics(0, stamp, anonymous, authenticated, ConversionRate(anonymous, authenticated),
                       CountInactive(rows, now - Day), CountInactive(rows, now - 2 * Day),
                       CountInactive(rows, now - Week), CountInactive(rows, now - Year))
  }

  /** An empty store gives zero counts and `"0%"`. */
  lemma EmptyStoreSnapshot(now: Timestamp)
    ensures var s := BuildSnapshot([], now);
            && s.totalAnonymousUsers == 0 && s.totalAuthenticatedUsers == 0 && s.conversionRate == "0%"
            && s.inactiveUsers24hr == 0 && s.inactiveUsers48hr == 0
            && s.inactiveUsers1wk == 0 && s.inactiveUsers1yr == 0
  {
  }

  /** The snapshot the code writes: the column default is evaluated once,
      when the model is loaded at `loadTime`, and every run is stamped with
      it. */
  function BuildSnapshotAsWritten(rows: seq<UserRow>, now: Timestamp, loadTime: Timestamp): (s: RetentionAnalytics)
    ensures s.timestamp == loadTime
    ensures s == BuildSnapshot(rows, now).(timestamp := loadTime)
  {
    Snapshot(rows, now, loadTime)
  }

  /** Two runs at different times get the same stamp, so the timestamp order
      of the table cannot tell which run is newer. */
  lemma StampIgnoresRunTime()
    ensures BuildSnapshotAsWritten([], 100, 0).timestamp == BuildSnapshotAsWritten([], 200, 0).timestamp
    ensures BuildSnapshot([], 100).timestamp < BuildSnapshot([], 200).timestamp
  {
  }

  // ---------------------------------------------------------------------
  // Newest-first read
  // ---------------------------------------------------------------------

  predicate NewestFirstOrder(s: seq<RetentionAnalytics>)
  {
    forall j, k :: 0 <= j < k < |s| ==> s[j].timestamp >= s[k].timestamp
  }

  /** Puts `x` before every snapshot that is not newer than it. */
  function InsertNewest(x: RetentionAnalytics, s: seq<RetentionAnalytics>): (r: seq<RetentionAnalytics>)
    requires NewestFirstOrder(s)
    ensures NewestFirstOrder(r)
    ensures multiset(r) == multiset(s) + multiset{x}
    ensures |r| > 0 && (r[0] == x || (|s| > 0 && r[0] == s[0]))
    ensures |s| > 0 && x.timestamp >= s[0].timestamp ==> r[0] == x
  {
    if |s| == 0 || x.timestamp >= s[0].timestamp then [x] + s
    else
      var rest := InsertNewest(x, s[1..]);
      assert s == [s[0]] + s[1..];
      [s[0]] + rest
  }

  /** `ORDER BY timestamp DESC` over the table, rows in insertion order. A
      later row goes before an earlier one with the same timestamp. */
  function NewestFirst(s: seq<RetentionAnalytics>): (r: seq<RetentionAnalytics>)
    ensures NewestFirstOrder(r)
    ensures multiset(r) == multiset(s)
    ensures |r| == |s|
  {
    if |s| == 0 then []
    else
      var r := InsertNewest(s[|s| - 1], NewestFirst(s[..|s| - 1]));
      assert s == s[..|s| - 1] + [s[|s| - 1]];
      assert |r| == |multiset(r)| == |multiset(s)| == |s|;
      r
  }

  /** The order is the only thing the read changes: the same snapshots, each
      as often as stored. */
  lemma NewestFirstSameElements(s: seq<RetentionAnalytics>, x: RetentionAnalytics)
    ensures x in NewestFirst(s) <==> x in s
  {
    assert x in multiset(NewestFirst(s)) <==> x in multiset(s);
  }

  /** When the last run is stamped no earlier than any other, the read
      returns it first. */
  lemma LatestRunFirst(s: seq<RetentionAnalytics>)
    requires |s| > 0
    requires forall k :: 0 <= k < |s| ==> s[k].timestamp <= s[|s| - 1].timestamp
    ensures NewestFirst(s)[0] == s[|s| - 1]
  {
    var rest := NewestFirst(s[..|s| - 1]);
    if |rest| > 0 {
      assert rest[0] in multiset(s[..|s| - 1]);
      assert rest[0] in s[..|s| - 1];
    }
  }

  // ---------------------------------------------------------------------
  // The service
  // ---------------------------------------------------------------------

  /** `log_user_activity`: stamps the login time of the user `userId`; an
      unknown id changes nothing. */
  method LogUserActivity(db: Session, userId: UserId, now: Timestamp)
    requires db.Valid()
    modifies db.users
    ensures db.Valid()
    ensures FindFirst(old(db.Rows()), ById(userId)).None? ==> db.Rows() == old(db.Rows())
    ensures FindFirst(old(db.Rows()), ById(userId)).Some? ==>
              var i := FindFirst(old(db.Rows()), ById(userId)).value;
              db.Rows() == old(db.Rows())[i := old(db.Rows())[i].(lastLoginAt := Some(now))]
  {
    var user := UserService.GetById(db, userId);
    if user != null {
      ghost var i := FindFirst(db.Rows(), ById(userId)).value;
      WriteLastLogin(db, user, i, now);
    }
  }

  method WriteLastLogin(db: Session, user: User, ghost i: nat, now: Timestamp)
    requires db.Valid() && i < |db.users| && user == db.users[i]
    modifies db.users
    ensures db.Valid()
    ensures db.Rows() == old(db.Rows())[i := old(db.Rows())[i].(lastLoginAt := Some(now))]
  {
    ghost var before := db.Rows();
    user.lastLoginAt := Some(now);
    SameKeysKeepValid(db, before, i);
  }

  /** `calculate_retention_metrics`: appends exactly one snapshot, computed
      from the users at `now`; users and earlier snapshots stay as they are. */
  method CalculateRetentionMetrics(db: Session, now: Timestamp)
    requires db.Valid()
    modifies db
    ensures db.Valid()
    ensures db.users == old(db.users) && db.Rows() == old(db.Rows())
    ensures db.snapshots == old(db.snapshots) + [BuildSnapshot(old(db.Rows()), now).(id := old(db.nextSnapshotId))]
  {
    var analytics := BuildSnapshot(db.Rows(), now);
    var ok := db.AddSnapshot(analytics);
  }

  /** `get_retention_data`: every stored snapshot, newest first. */
  method GetRetentionData(db: Session) returns (data: seq<RetentionAnalytics>)
    ensures data == NewestFirst(db.snapshots)
    ensures NewestFirstOrder(data) && multiset(data) == multiset(db.snapshots)
  {
    data := NewestFirst(db.snapshots);
  }
}
