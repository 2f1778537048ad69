/** The database session the services run against: the `users` table (as
    live `User` objects), the `retention_analytics` table, the column
    constraints the database enforces at commit, and the `filter_by` lookup. */
module Store {
  import opened UserModel

  /** The single-column filters `_fetch_user` is called with. */
  datatype Filter = ById(id: UserId) | ByEmail(email: string) | ByNickname(nickname: string)

  predicate Matches(r: UserRow, f: Filter)
  {
    match f
    case ById(id) => r.id == id
    case ByEmail(e) => r.email == e
    case ByNickname(n) => r.nickname == n
  }

  predicate Taken(rows: seq<UserRow>, f: Filter)
  {
    exists k :: 0 <= k < |rows| && Matches(rows[k], f)
  }

  /** `select(User).filter_by(...).first()`: the position of the first row
      that matches, in table order. */
  function FindFirst(rows: seq<UserRow>, f: Filter): (r: Option<nat>)
    ensures r.None? <==> !Taken(rows, f)
    ensures r.Some? ==> r.value < |rows| && Matches(rows[r.value], f)
    ensures r.Some? ==> forall k :: 0 <= k < r.value ==> !Matches(rows[k], f)
  {
    if |rows| == 0 then None
    else if Matches(rows[0], f) then Some(0)
    else
      match FindFirst(rows[1..], f)
      case None =>
        assert forall k :: 1 <= k < |rows| ==> rows[k] == rows[1..][k - 1];
        None
      case Some(i) => Some(i + 1)
  }

  /** The UNIQUE constraints of `users`: primary key, `email`, `nickname`. */
  ghost predicate UniqueKeys(rows: seq<UserRow>)
  {
    forall i, j :: 0 <= i < j < |rows| ==>
      rows[i].id != rows[j].id && rows[i].email != rows[j].email && rows[i].nickname != rows[j].nickname
  }

  /** Under the UNIQUE constraints a lookup finds the one row holding the key. */
  lemma FindUnique(rows: seq<UserRow>, k: nat, f: Filter)
    requires UniqueKeys(rows) && k < |rows| && Matches(rows[k], f)
    ensures FindFirst(rows, f) == Some(k)
  {
  }

  /** Some other row than position `i` already holds `r`'s email or nickname. */
  predicate ClashesWithOthers(rows: seq<UserRow>, i: nat, r: UserRow)
  {
    exists k :: 0 <= k < |rows| && k != i && (rows[k].email == r.email || rows[k].nickname == r.nickname)
  }

  /** Replacing one row keeps the UNIQUE constraints when the new row keeps its
      primary key and clashes with no other row. */
  lemma ReplaceKeepsUnique(rows: seq<UserRow>, i: nat, r: UserRow)
    requires UniqueKeys(rows) && i < |rows|
    requires r.id == rows[i].id && !ClashesWithOthers(rows, i, r)
    ensures UniqueKeys(rows[i := r])
  {
    var rows' := rows[i := r];
    forall a, b | 0 <= a < b < |rows'|
      ensures rows'[a].id != rows'[b].id && rows'[a].email != rows'[b].email && rows'[a].nickname != rows'[b].nickname
    {
      if a == i {
        assert rows[b] == rows'[b];
      } else if b == i {
        assert rows[a] == rows'[a];
      }
    }
  }

  /** A row that keeps its email and nickname clashes with no other row. */
  lemma SameKeysNoClash(rows: seq<UserRow>, i: nat, r: UserRow)
    requires UniqueKeys(rows) && i < |rows|
    requires r.email == rows[i].email && r.nickname == rows[i].nickname
    ensures !ClashesWithOthers(rows, i, r)
  {
    forall k | 0 <= k < |rows| && k != i
      ensures rows[k].email != r.email && rows[k].nickname != r.nickname
    {
      if k < i {
        assert rows[k].email != rows[i].email && rows[k].nickname != rows[i].nickname;
      } else {
        assert rows[i].email != rows[k].email && rows[i].nickname != rows[k].nickname;
      }
    }
  }

  /** What the database accepts on commit of a new `users` row: the NOT NULL
      columns are set, the UNIQUE columns are fresh, and `invited_by_user_id`
      refers to an existing user. */
  predicate Insertable(rows: seq<UserRow>, d: Draft)
  {
    && RequiredColumnsSet(d)
    && !Taken(rows, ByEmail(d.email))
    && !Taken(rows, ByNickname(d.nickname.value))
    && (d.invitedByUserId.Some? ==> Taken(rows, ById(d.invitedByUserId.value)))
  }

  class Session {
    var users: seq<User>
    var snapshots: seq<RetentionAnalytics>
    /** Stand-ins for `uuid.uuid4()`: the next primary key of each table. */
    var nextUserId: UserId
    var nextSnapshotId: nat

    /** The `users` table as values, in table order. */
    function Rows(): (rows: seq<UserRow>)
      reads this, users
      ensures |rows| == |users|
      ensures forall k :: 0 <= k < |users| ==> rows[k] == users[k].Row()
    {
      seq(|users|, k reads this, users requires 0 <= k < |users| => users[k].Row())
    }

    ghost predicate Valid()
      reads this, users
    {
      && (forall i, j :: 0 <= i < j < |users| ==> users[i] != users[j])
      && UniqueKeys(Rows())
      && (forall k :: 0 <= k < |users| ==> users[k].id < nextUserId)
      && (forall k :: 0 <= k < |snapshots| ==>
            snapshots[k].id < nextSnapshotId && |snapshots[k].conversionRate| <= ConversionRateWidth)
    }

    constructor ()
      ensures Valid() && users == [] && snapshots == []
    {
      users := [];
      snapshots := [];
      nextUserId := 0;
      nextSnapshotId := 0;
    }

    /** `session.add(user)` followed by `commit()`: the row is inserted when
        the database accepts it, and nothing changes otherwise. */
    method Add(d: Draft, now: Timestamp) returns (u: User?)
      requires Valid()
      modifies this
      ensures Valid() && snapshots == old(snapshots) && nextSnapshotId == old(nextSnapshotId)
      ensures (u != null) == Insertable(old(Rows()), d)
      ensures u == null ==> users == old(users) && Rows() == old(Rows())
      ensures u != null ==> && fresh(u) && users == old(users) + [u]
                            && RequiredColumnsSet(d)
                            && u.Row() == InsertedRow(old(nextUserId), d, now)
                            && Rows() == old(Rows()) + [u.Row()]
    {
      if !Insertable(Rows(), d) {
        return null;
      }
      ghost var before := Rows();
      u := new User(nextUserId, d, now);
      users := users + [u];
      nextUserId := nextUserId + 1;
      assert Rows() == before + [u.Row()];
      forall i, j | 0 <= i < j < |Rows()|
        ensures Rows()[i].id != Rows()[j].id && Rows()[i].email != Rows()[j].email
             && Rows()[i].nickname != Rows()[j].nickname
      {
        if j == |before| {
          assert Matches(before[i], ByEmail(before[i].email));
          assert Matches(before[i], ByNickname(before[i].nickname));
        }
      }
    }

    /** `session.delete(users[i])` followed by `commit()`. */
    method Remove(i: nat)
      requires Valid() && i < |users|
      modifies this
      ensures Valid() && snapshots == old(snapshots)
      ensures users == old(users[..i] + users[i + 1..])
      ensures Rows() == old(Rows()[..i] + Rows()[i + 1..])
    {
      ghost var before := Rows();
      users := users[..i] + users[i + 1..];
      assert Rows() == before[..i] + before[i + 1..];
    }

    /** `db.add(analytics)` followed by `commit()`: the snapshot gets the next
        primary key; a rate longer than the column is refused. */
    method AddSnapshot(s: RetentionAnalytics) returns (ok: bool)
      requires Valid()
      modifies this
      ensures Valid() && users == old(users) && Rows() == old(Rows())
      ensures ok == (|s.conversionRate| <= ConversionRateWidth)
      ensures ok ==> snapshots == old(snapshots) + [s.(id := old(nextSnapshotId))]
      ensures !ok ==> snapshots == old(snapshots)
    {
      ok := |s.conversionRate| <= ConversionRateWidth;
      if ok {
        snapshots := snapshots + [s.(id := nextSnapshotId)];
        nextSnapshotId := nextSnapshotId + 1;
      }
    }
  }


  /** After the fields of stored user `i` were assigned in place, keeping
      its primary key and clashing with no other row, the table view differs
      from `before` at position `i` only and the session is still valid. */
  lemma RewriteKeepsValid(db: Session, before: seq<UserRow>, i: nat)
    requires |before| == |db.users| && i < |db.users| && UniqueKeys(before)
    requires forall k :: 0 <= k < |db.users| && k != i ==> db.users[k].Row() == before[k]
    requires db.users[i].id == before[i].id && !ClashesWithOthers(before, i, db.users[i].Row())
    requires forall a, b :: 0 <= a < b < |db.users| ==> db.users[a] != db.users[b]
    requires forall k :: 0 <= k < |before| ==> before[k].id < db.nextUserId
    requires forall k :: 0 <= k < |db.snapshots| ==>
               db.snapshots[k].id < db.nextSnapshotId && |db.snapshots[k].conversionRate| <= ConversionRateWidth
    ensures db.Rows() == before[i := db.users[i].Row()]
    ensures db.Valid()
  {
    var r := db.users[i].Row();
    ReplaceKeepsUnique(before, i, r);
    assert db.Rows() == before[i := r];
  }

  /** The same, for an assignment that keeps the e-mail and the nickname. */
  lemma SameKeysKeepValid(db: Session, before: seq<UserRow>, i: nat)
    requires |before| == |db.users| && i < |db.users| && UniqueKeys(before)
    requires forall k :: 0 <= k < |db.users| && k != i ==> db.users[k].Row() == before[k]
    requires db.users[i].email == before[i].email && db.users[i].nickname == before[i].nickname
    requires db.users[i].id == before[i].id
    requires forall a, b :: 0 <= a < b < |db.users| ==> db.users[a] != db.users[b]
    requires forall k :: 0 <= k < |before| ==> before[k].id < db.nextUserId
    requires forall k :: 0 <= k < |db.snapshots| ==>
               db.snapshots[k].id < db.nextSnapshotId && |db.snapshots[k].conversionRate| <= ConversionRateWidth
    ensures db.Rows() == before[i := db.users[i].Row()]
    ensures db.Valid()
  {
    SameKeysNoClash(before, i, db.users[i].Row());
    RewriteKeepsValid(db, before, i);
  }
}
