/**
 * The binding table between Discord IDs and XUIDs (server/repository.go).
 *
 * The gorm/sqlite table is modelled as the sequence of its rows in
 * primary-key order, so `First` is the earliest matching row.  Whether each
 * call into the database engine succeeds is supplied by the caller as a
 * `Storage` value; a failed call reports an opaque error.
 */
module Repository {
  import opened Errors

  /** User: the binding handed to callers. */
  datatype User = User(discord: string, xuid: string)

  /** UserData: a row of the users table (its ID and timestamps are its position). */
  datatype UserData = UserData(discord: string, xuid: string)

  /** ToUser copies both identities unchanged. */
  function ToUser(u: UserData): (r: User)
    ensures r.discord == u.discord && r.xuid == u.xuid
  {
    User(u.discord, u.xuid)
  }

  /** The outcome of one call into the database engine. */
  datatype Storage = Succeeds | Fails(detail: string)

  /** What gorm's `First` reports. */
  datatype FirstResult = Row(row: UserData) | RecordNotFound | DbError(detail: string)

  datatype Column = DiscordColumn | XuidColumn

  function Key(u: UserData, c: Column): string {
    match c
    case DiscordColumn => u.discord
    case XuidColumn => u.xuid
  }

  const UserNotFound: ApplicationError := NewApplicationError(40400, "User not found")
  const AlreadyBound: ApplicationError := NewApplicationError(40000, "Either discord or XUID are already bound")

  /** Discord IDs are unique across rows, and so are XUIDs. */
  ghost predicate Unique(rows: seq<UserData>) {
    forall i, j :: 0 <= i < j < |rows| ==> rows[i].discord != rows[j].discord && rows[i].xuid != rows[j].xuid
  }

  /** The WHERE clauses the repository queries with. */
  datatype Condition = ColumnIs(column: Column, value: string) | DiscordOrXuid(discordId: string, xuid: string)

  predicate Selects(cond: Condition, u: UserData) {
    match cond
    case ColumnIs(c, v) => Key(u, c) == v
    case DiscordOrXuid(d, x) => u.discord == d || u.xuid == x
  }

  /** The index of the first row the condition selects. */
  function FirstIndex(rows: seq<UserData>, cond: Condition): (r: Option<nat>)
    ensures r.Some? ==> r.value < |rows| && Selects(cond, rows[r.value])
    ensures r.Some? ==> forall j :: 0 <= j < r.value ==> !Selects(cond, rows[j])
    ensures r.None? ==> forall j :: 0 <= j < |rows| ==> !Selects(cond, rows[j])
  {
    if rows == [] then None
    else if Selects(cond, rows[0]) then Some(0)
    else match FirstIndex(rows[1..], cond)
      case None => None
      case Some(i) => Some(i + 1)
  }

  /** gorm's `First(&user, cond)`: the selected row with the lowest primary key. */
  function First(rows: seq<UserData>, cond: Condition, lookup: Storage): FirstResult {
    if lookup.Fails? then DbError(lookup.detail)
    else match FirstIndex(rows, cond)
      case Some(i) => Row(rows[i])
      case None => RecordNotFound
  }

  /** Some row binds the Discord ID or the XUID. */
  ghost predicate Conflicts(rows: seq<UserData>, discordId: string, xuid: string) {
    exists i :: 0 <= i < |rows| && (rows[i].discord == discordId || rows[i].xuid == xuid)
  }

  /** `GetUserBy<column>`: the first row found, 40400 when there is none, the engine's error otherwise. */
  function GetUserBy(rows: seq<UserData>, c: Column, v: string, lookup: Storage): (r: Result<User>)
    ensures lookup.Fails? ==> r == Err(Internal(lookup.detail))
    ensures lookup.Succeeds? ==> (r.Ok? <==> exists i :: 0 <= i < |rows| && Key(rows[i], c) == v)
    ensures r.Ok? ==> exists i :: 0 <= i < |rows| && Key(rows[i], c) == v && r.value == ToUser(rows[i])
    ensures lookup.Succeeds? && r.Err? ==> r.error == App(UserNotFound)
  {
    match First(rows, ColumnIs(c, v), lookup)
    case Row(u) => Ok(ToUser(u))
    case RecordNotFound => Err(App(UserNotFound))
    case DbError(detail) => Err(Internal(detail))
  }

  /** The rows whose column `c` does not hold `v`: what `Delete(&UserData{}, "<column> = ?", v)` leaves. */
  function Drop(rows: seq<UserData>, c: Column, v: string): (r: seq<UserData>)
    ensures forall u :: u in r <==> u in rows && Key(u, c) != v
    ensures |r| <= |rows|
    ensures multiset(r) <= multiset(rows)
  {
    if rows == [] then []
    else
      assert rows == [rows[0]] + rows[1..];
      if Key(rows[0], c) == v then Drop(rows[1..], c, v)
      else [rows[0]] + Drop(rows[1..], c, v)
  }

  /**
   * What `CreateUser(discordId, xuid)` does to the rows.  When the lookup
   * finds a row binding either identity, it fails with 40000 and changes
   * nothing.  On any other lookup outcome, including an engine error, it
   * inserts the row; an insert that fails changes nothing and returns the
   * engine's error.  (`CreateRefusesIff` restates the first case over the rows.)
   */
  ghost predicate Created(before: seq<UserData>, after: seq<UserData>, discordId: string, xuid: string,
                          lookup: Storage, insert: Storage, r: Result<User>)
  {
    if First(before, DiscordOrXuid(discordId, xuid), lookup).Row? then
      after == before && r == Err(App(AlreadyBound))
    else if insert.Fails? then
      after == before && r == Err(Internal(insert.detail))
    else
      after == before + [UserData(discordId, xuid)] && r == Ok(User(discordId, xuid))
  }

  /**
   * What `DeleteUserBy<column>(v)` does: the lookup's error when it fails
   * (40400 when no row matches), otherwise success, with every matching row
   * removed unless the delete itself fails (its error is ignored).
   */
  ghost predicate Deleted(before: seq<UserData>, after: seq<UserData>, c: Column, v: string,
                          lookup: Storage, removal: Storage, r: Outcome)
  {
    var found := GetUserBy(before, c, v, lookup);
    if found.Err? then
      after == before && r == Fail(found.error)
    else
      r == Pass && after == (if removal.Succeeds? then Drop(before, c, v) else before)
  }

  // ---------------------------------------------------------------------
  // Lemmas about the specification
  // ---------------------------------------------------------------------

  /** In a table with unique columns, looking up a row's identity finds that very row. */
  lemma GetUserFindsTheRow(rows: seq<UserData>, c: Column, i: int)
    requires Unique(rows) && 0 <= i < |rows|
    ensures GetUserBy(rows, c, Key(rows[i], c), Succeeds) == Ok(ToUser(rows[i]))
  {
    UniqueKeys(rows, c);
  }

  /** CreateUser refuses exactly when some row binds the Discord ID or the XUID and the lookup succeeds. */
  lemma CreateRefusesIff(before: seq<UserData>, discordId: string, xuid: string, lookup: Storage)
    ensures First(before, DiscordOrXuid(discordId, xuid), lookup).Row? <==> lookup.Succeeds? && Conflicts(before, discordId, xuid)
  {
    if lookup.Succeeds? && Conflicts(before, discordId, xuid) {
      var i :| 0 <= i < |before| && (before[i].discord == discordId || before[i].xuid == xuid);
      assert Selects(DiscordOrXuid(discordId, xuid), before[i]);
    }
  }

  /** CreateUser keeps both columns unique, as long as its lookup does not fail. */
  lemma CreateKeepsUnique(before: seq<UserData>, after: seq<UserData>, discordId: string, xuid: string,
                          insert: Storage, r: Result<User>)
    requires Unique(before) && Created(before, after, discordId, xuid, Succeeds, insert, r)
    ensures Unique(after)
  {
    if r.Ok? {
      forall i, j | 0 <= i < j < |after|
        ensures after[i].discord != after[j].discord && after[i].xuid != after[j].xuid
      {
        if j == |before| {
          assert !(before[i].discord == discordId || before[i].xuid == xuid);
        }
      }
    }
  }

  /**
   * The lookup at server/repository.go:80-81 treats every error as "not
   * bound": when it fails, CreateUser inserts a second row for an identity
   * that is already bound.
   */
  lemma LookupErrorBreaksUnique()
    ensures var before := [UserData("d", "x")];
            var after := before + [UserData("d", "x")];
            Unique(before) && Created(before, after, "d", "x", Fails("database is locked"), Succeeds, Ok(User("d", "x"))) &&
            !Unique(after)
  {
    var after := [UserData("d", "x")] + [UserData("d", "x")];
    assert after[0].discord == after[1].discord;
  }

  /** Once an identity is bound, a second CreateUser with the same Discord ID or the same XUID fails and changes nothing. */
  lemma CreateTwiceConflicts(r0: seq<UserData>, r1: seq<UserData>, r2: seq<UserData>,
                             discordId: string, xuid: string, lookup: Storage, insert: Storage,
                             discordId2: string, xuid2: string, insert2: Storage,
                             res1: Result<User>, res2: Result<User>)
    requires Created(r0, r1, discordId, xuid, lookup, insert, res1) && res1.Ok?
    requires discordId2 == discordId || xuid2 == xuid
    requires Created(r1, r2, discordId2, xuid2, Succeeds, insert2, res2)
    ensures res2 == Err(App(AlreadyBound)) && r2 == r1
  {
    assert r1[|r0|] == UserData(discordId, xuid);
  }

  /** Drop keeps both columns unique. */
  lemma {:induction false} DropKeepsUnique(rows: seq<UserData>, c: Column, v: string)
    requires Unique(rows)
    ensures Unique(Drop(rows, c, v))
  {
    if rows != [] {
      DropKeepsUnique(rows[1..], c, v);
      var rest := Drop(rows[1..], c, v);
      if Key(rows[0], c) != v {
        var r := [rows[0]] + rest;
        forall i, j | 0 <= i < j < |r|
          ensures r[i].discord != r[j].discord && r[i].xuid != r[j].xuid
        {
          if i == 0 {
            assert r[j] in rows[1..];
          }
        }
      }
    }
  }

  /** In a table with unique columns, each column on its own is unique. */
  lemma UniqueKeys(rows: seq<UserData>, c: Column)
    requires Unique(rows)
    ensures forall i, j :: 0 <= i < j < |rows| ==> Key(rows[i], c) != Key(rows[j], c)
  {
  }

  /** In a table with unique columns, deleting a row's identity removes exactly that row and keeps the rest in order. */
  lemma {:induction false} DropTheRow(rows: seq<UserData>, c: Column, i: int)
    requires Unique(rows) && 0 <= i < |rows|
    ensures Drop(rows, c, Key(rows[i], c)) == rows[..i] + rows[i + 1..]
  {
    var v := Key(rows[i], c);
    UniqueKeys(rows, c);
    if i == 0 {
      assert forall j :: 0 <= j < |rows[1..]| ==> Key(rows[1..][j], c) != v;
      NoOtherMatch(rows[1..], c, v);
    } else {
      assert Key(rows[0], c) != v;
      var tail := rows[1..];
      assert tail[i - 1] == rows[i];
      calc {
        Drop(rows, c, v);
        [rows[0]] + Drop(tail, c, v);
        { DropTheRow(tail, c, i - 1); }
        [rows[0]] + (tail[..i - 1] + tail[i..]);
        { assert tail[..i - 1] == rows[1..i]; assert tail[i..] == rows[i + 1..]; }
        [rows[0]] + (rows[1..i] + rows[i + 1..]);
        { assert [rows[0]] + rows[1..i] == rows[..i]; }
        rows[..i] + rows[i + 1..];
      }
    }
  }

  /** Drop leaves a table without the value unchanged. */
  lemma {:induction false} NoOtherMatch(rows: seq<UserData>, c: Column, v: string)
    requires forall j :: 0 <= j < |rows| ==> Key(rows[j], c) != v
    ensures Drop(rows, c, v) == rows
  {
    if rows != [] {
      NoOtherMatch(rows[1..], c, v);
    }
  }

  /** Deleting keeps both columns unique. */
  lemma DeleteKeepsUnique(before: seq<UserData>, after: seq<UserData>, c: Column, v: string,
                          lookup: Storage, removal: Storage, r: Outcome)
    requires Unique(before) && Deleted(before, after, c, v, lookup, removal, r)
    ensures Unique(after)
  {
    DropKeepsUnique(before, c, v);
  }

  /**
   * Unbinding a Discord ID frees the XUID it was bound to: afterwards that
   * XUID is not found.
   */
  lemma UnbindFreesXuid(before: seq<UserData>, after: seq<UserData>, discordId: string, xuid: string, r: Outcome)
    requires Unique(before) && UserData(discordId, xuid) in before
    requires Deleted(before, after, DiscordColumn, discordId, Succeeds, Succeeds, r)
    ensures r == Pass
    ensures GetUserBy(after, XuidColumn, xuid, Succeeds) == Err(App(UserNotFound))
  {
    var i :| 0 <= i < |before| && before[i] == UserData(discordId, xuid);
    assert Key(before[i], DiscordColumn) == discordId;
    forall j | 0 <= j < |after|
      ensures after[j].xuid != xuid
    {
      assert after[j] in before && after[j].discord != discordId;
    }
  }

  // ---------------------------------------------------------------------
  // The repository
  // ---------------------------------------------------------------------

  /** defaultRepository over the rows of its users table. */
  class DefaultRepository {
    var rows: seq<UserData>

    ghost predicate Valid()
      reads this
    {
      Unique(rows)
    }

    /** A repository over the table as it is stored. */
    constructor (stored: seq<UserData>)
      ensures rows == stored
    {
      rows := stored;
    }

    function GetUserByDiscord(discordId: string, lookup: Storage): (r: Result<User>)
      reads this
      ensures lookup.Fails? ==> r == Err(Internal(lookup.detail))
      ensures lookup.Succeeds? ==> (r.Ok? <==> exists i :: 0 <= i < |rows| && rows[i].discord == discordId)
      ensures r.Ok? ==> r.value.discord == discordId && exists i :: 0 <= i < |rows| && r.value == ToUser(rows[i])
      ensures lookup.Succeeds? && r.Err? ==> r.error == App(UserNotFound)
    {
      GetUserBy(rows, DiscordColumn, discordId, lookup)
    }

    function GetUserByXUID(xuid: string, lookup: Storage): (r: Result<User>)
      reads this
      ensures lookup.Fails? ==> r == Err(Internal(lookup.detail))
      ensures lookup.Succeeds? ==> (r.Ok? <==> exists i :: 0 <= i < |rows| && rows[i].xuid == xuid)
      ensures r.Ok? ==> r.value.xuid == xuid && exists i :: 0 <= i < |rows| && r.value == ToUser(rows[i])
      ensures lookup.Succeeds? && r.Err? ==> r.error == App(UserNotFound)
    {
      GetUserBy(rows, XuidColumn, xuid, lookup)
    }

    method CreateUser(discordId: string, xuid: string, lookup: Storage, insert: Storage) returns (r: Result<User>)
      modifies this
      ensures Created(old(rows), rows, discordId, xuid, lookup, insert, r)
      ensures old(Valid()) && lookup.Succeeds? ==> Valid()
    {
      var found := First(rows, DiscordOrXuid(discordId, xuid), lookup);
      if found.Row? {
        return Err(App(AlreadyBound));
      }
      var user := UserData(discordId, xuid);
      if insert.Fails? {
        return Err(Internal(insert.detail));
      }
      rows := rows + [user];
      r := Ok(ToUser(user));
      if old(Valid()) && lookup.Succeeds? {
        CreateKeepsUnique(old(rows), rows, discordId, xuid, insert, r);
      }
    }

    method DeleteUserByDiscord(discordId: string, lookup: Storage, removal: Storage) returns (r: Outcome)
      modifies this
      ensures Deleted(old(rows), rows, DiscordColumn, discordId, lookup, removal, r)
      ensures old(Valid()) ==> Valid()
    {
      var user := GetUserByDiscord(discordId, lookup);
      if user.Err? {
        return Fail(user.error);
      }
      if removal.Succeeds? {
        rows := Drop(rows, DiscordColumn, user.value.discord);
      }
      r := Pass;
      if old(Valid()) {
        DeleteKeepsUnique(old(rows), rows, DiscordColumn, discordId, lookup, removal, r);
      }
    }

    method DeleteUserByXUID(xuid: string, lookup: Storage, removal: Storage) returns (r: Outcome)
      modifies this
      ensures Deleted(old(rows), rows, XuidColumn, xuid, lookup, removal, r)
      ensures old(Valid()) ==> Valid()
    {
      var user := GetUserByXUID(xuid, lookup);
      if user.Err? {
        return Fail(user.error);
      }
      if removal.Succeeds? {
        rows := Drop(rows, XuidColumn, user.value.xuid);
      }
      r := Pass;
      if old(Valid()) {
        DeleteKeepsUnique(old(rows), rows, XuidColumn, xuid, lookup, removal, r);
      }
    }
  }
}
