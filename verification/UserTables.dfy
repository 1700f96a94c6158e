// internal/store/sqlite/user.go and credential.go: the users and credentials tables, and each
// transaction as one change that applies as a whole or not at all.
module UserTables {

  import opened Wrappers
  import opened Text
  import opened Engine
  import opened Config
  import opened Store
  import opened UsersState

  // ---- the protocol column ----

  predicate IsComma(c: char) {
    c == ','
  }

  function JoinProtocols(ps: seq<string>): string {
    if ps == [] then "" else if |ps| == 1 then ps[0] else ps[0] + "," + JoinProtocols(ps[1..])
  }

  // strings.Split(s, ",") on a non-empty column.
  function Split(s: string): (ps: seq<string>)
    ensures ps != []
    decreases |s|
  {
    var k := Until(s, IsComma);
    if k == |s| then [s] else [s[..k]] + Split(s[k + 1..])
  }

  function SplitProtocols(s: string): seq<string> {
    if s == "" then [] else Split(s)
  }

  lemma {:induction false} SplitJoin(ps: seq<string>)
    requires ps != [] && forall p | p in ps :: p != "" && Without(p, IsComma)
    ensures JoinProtocols(ps) != "" && Split(JoinProtocols(ps)) == ps
  {
    var s := JoinProtocols(ps);
    assert ps[0] in ps;
    assert s[..|ps[0]|] == ps[0];
    UntilIs(s, IsComma, |ps[0]|);
    if |ps| > 1 {
      assert s[|ps[0]| + 1..] == JoinProtocols(ps[1..]);
      assert forall p | p in ps[1..] :: p in ps;
      SplitJoin(ps[1..]);
    }
  }

  lemma CommaAt(s: string)
    ensures var k := Until(s, IsComma); k < |s| ==> s[k] == ','
  {
  }

  lemma {:induction false} JoinSplit(s: string)
    ensures JoinProtocols(Split(s)) == s
    decreases |s|
  {
    hide Until, Without, IsComma;
    var k := Until(s, IsComma);
    if k == |s| {
      assert Split(s) == [s];
    } else {
      JoinSplit(s[k + 1..]);
      var rest := Split(s[k + 1..]);
      assert Split(s)[1..] == rest;
      assert s[k] == ',' by {
        CommaAt(s);
      }
      assert s == s[..k] + "," + s[k + 1..];
    }
  }

  lemma JoinSplitProtocols(s: string)
    ensures JoinProtocols(SplitProtocols(s)) == s
  {
    if s != "" {
      JoinSplit(s);
    }
  }

  lemma SplitJoinProtocols(ps: seq<string>)
    requires ps != [] && ValidProtocols(ps)
    ensures SplitProtocols(JoinProtocols(ps)) == ps
  {
    forall p | p in ps ensures p != "" && Without(p, IsComma) {
      assert KnownProtocol(p);
    }
    SplitJoin(ps);
  }

  // ---- tables ----

  // The columns UpdateUser writes.
  datatype Limits = Limits(
    protocols: string, downloadBPS: int, uploadBPS: int, maxConnections: int,
    quotaDaily: int, quotaMonthly: int, expiresAt: Option<int>)

  datatype UserRow = UserRow(username: string, status: string, limits: Limits, version: int)

  datatype CredentialRow = CredentialRow(userId: int, engineHash: string, active: bool)

  // AUTOINCREMENT: the next ids only grow, so an id is never reused.
  datatype Tables = Tables(users: map<int, UserRow>, credentials: map<int, CredentialRow>, nextUser: int, nextCredential: int)

  const NO_TABLES := Tables(map[], map[], 1, 1)

  datatype StoreError = NotFound | Conflict | Storage

  // scanUser.
  function UserOf(id: int, row: UserRow): ProxyUser {
    var l := row.limits;
    ProxyUser(id, row.username, row.status, SplitProtocols(l.protocols), l.downloadBPS, l.uploadBPS,
              l.maxConnections, l.quotaDaily, l.quotaMonthly, l.expiresAt, row.version)
  }

  function LimitsOf(u: ProxyUser): Limits {
    Limits(JoinProtocols(u.protocols), u.downloadBPS, u.uploadBPS, u.maxConnections,
           u.quotaDaily, u.quotaMonthly, u.expiresAt)
  }

  // ---- transactions as functions ----

  predicate NameTaken(t: Tables, username: string) {
    exists id | id in t.users :: t.users[id].username == username
  }

  function Created(t: Tables, username: string, limits: Limits, hash: string): Tables {
    Tables(t.users[t.nextUser := UserRow(username, "active", limits, 1)],
           t.credentials[t.nextCredential := CredentialRow(t.nextUser, hash, true)],
           t.nextUser + 1, t.nextCredential + 1)
  }

  predicate AtVersion(t: Tables, id: int, version: int) {
    id in t.users && t.users[id].version == version
  }

  // versionConflict.
  function Refusal(t: Tables, id: int): StoreError {
    if id in t.users then Conflict else NotFound
  }

  function Updated(t: Tables, id: int, limits: Limits): Tables
    requires id in t.users
  {
    var row := t.users[id];
    t.(users := t.users[id := row.(limits := limits, version := row.version + 1)])
  }

  function StatusSet(t: Tables, id: int, status: string): Tables
    requires id in t.users
  {
    var row := t.users[id];
    t.(users := t.users[id := row.(status := status, version := row.version + 1)])
  }

  function Revoked(cs: map<int, CredentialRow>, id: int): map<int, CredentialRow> {
    map c | c in cs :: if cs[c].userId == id then cs[c].(active := false) else cs[c]
  }

  function Rotated(t: Tables, id: int, hash: string): Tables
    requires id in t.users
  {
    var row := t.users[id];
    t.(users := t.users[id := row.(version := row.version + 1)],
       credentials := Revoked(t.credentials, id)[t.nextCredential := CredentialRow(id, hash, true)],
       nextCredential := t.nextCredential + 1)
  }

  predicate PastExpiry(row: UserRow, now: int) {
    row.status == "active" && row.limits.expiresAt.Some? && row.limits.expiresAt.value <= now
  }

  function Swept(t: Tables, now: int): Tables {
    t.(users := map id | id in t.users ::
         if PastExpiry(t.users[id], now) then t.users[id].(status := "expired", version := t.users[id].version + 1)
         else t.users[id])
  }

  // ON DELETE CASCADE.
  function Deleted(t: Tables, id: int): Tables {
    t.(users := t.users - {id},
       credentials := map c | c in t.credentials && t.credentials[c].userId != id :: t.credentials[c])
  }

  // ---- the repository ----

  // Where a transaction fails, if it does; nothing of a failed transaction is kept.
  datatype TxFault = NoFault | AtFirst | AtSecond | AtCommit

  class Repository {
    var users: map<int, UserRow>
    var credentials: map<int, CredentialRow>
    var nextUser: int
    var nextCredential: int

    constructor ()
      ensures View() == NO_TABLES
    {
      users, credentials, nextUser, nextCredential := map[], map[], 1, 1;
    }

    function View(): Tables
      reads this
    {
      Tables(users, credentials, nextUser, nextCredential)
    }

    method CreateUser(u: ProxyUser, hash: string, fault: TxFault) returns (r: Result<int, StoreError>)
      modifies this
      ensures match r
        case Ok(id) => !NameTaken(old(View()), u.username) && id == old(nextUser)
                       && View() == Created(old(View()), u.username, LimitsOf(u), hash)
        case Err(e) => View() == old(View()) && (e == Conflict <==> fault != AtFirst && NameTaken(View(), u.username))
      ensures r.Ok? <==> fault == NoFault && !NameTaken(old(View()), u.username)
      ensures r.Err? ==> r.error == if fault != AtFirst && NameTaken(old(View()), u.username) then Conflict else Storage
    {
      if fault == AtFirst {
        return Err(Storage);
      }
      if NameTaken(View(), u.username) {
        return Err(Conflict);
      }
      var id := nextUser;
      var users' := users[id := UserRow(u.username, "active", LimitsOf(u), 1)];
      if fault == AtSecond {
        return Err(Storage);
      }
      var credentials' := credentials[nextCredential := CredentialRow(id, hash, true)];
      if fault == AtCommit {
        return Err(Storage);
      }
      users, credentials := users', credentials';
      nextUser, nextCredential := nextUser + 1, nextCredential + 1;
      return Ok(id);
    }

    // available says whether the database executes the statement.
    method GetUserByID(id: int, available: bool) returns (r: Result<ProxyUser, StoreError>)
      ensures r == if !available then Err(Storage) else if id in users then Ok(UserOf(id, users[id])) else Err(NotFound)
    {
      if !available {
        return Err(Storage);
      }
      if id !in users {
        return Err(NotFound);
      }
      return Ok(UserOf(id, users[id]));
    }

    // The write and the second statement, which reads the row back or finds out why nothing matched: a
    // row written stays written when reading it back fails, although the caller gets an error.
    method UpdateUser(u: ProxyUser, available: bool, second: bool) returns (r: Result<(), StoreError>)
      modifies this`users
      ensures var written := available && AtVersion(old(View()), u.id, u.version);
        && View() == (if written then Updated(old(View()), u.id, LimitsOf(u)) else old(View()))
        && (r.Ok? <==> written && second)
      ensures r.Err? ==> r.error == if available && second then Refusal(old(View()), u.id) else Storage
    {
      if !available {
        return Err(Storage);
      }
      if u.id in users && users[u.id].version == u.version {
        var row := users[u.id];
        users := users[u.id := row.(limits := LimitsOf(u), version := row.version + 1)];
        return if second then Ok(()) else Err(Storage);
      }
      return Err(if !second then Storage else if u.id in users then Conflict else NotFound);
    }

    method SetUserStatus(id: int, status: string, expected: int, available: bool, second: bool)
      returns (r: Result<(), StoreError>)
      modifies this`users
      ensures var written := available && AtVersion(old(View()), id, expected);
        && View() == (if written then StatusSet(old(View()), id, status) else old(View()))
        && (r.Ok? <==> written && second)
      ensures r.Err? ==> r.error == if available && second then Refusal(old(View()), id) else Storage
    {
      if !available {
        return Err(Storage);
      }
      if id in users && users[id].version == expected {
        var row := users[id];
        users := users[id := row.(status := status, version := row.version + 1)];
        return if second then Ok(()) else Err(Storage);
      }
      return Err(if !second then Storage else if id in users then Conflict else NotFound);
    }

    method SweepExpired(now: int, available: bool) returns (r: Result<nat, StoreError>)
      modifies this`users
      ensures r == if available then Ok(|set id | id in old(users) && PastExpiry(old(users)[id], now)|) else Err(Storage)
      ensures View() == if available then Swept(old(View()), now) else old(View())
    {
      if !available {
        return Err(Storage);
      }
      var due := set id | id in users && PastExpiry(users[id], now);
      users := map id | id in users :: if id in due then users[id].(status := "expired", version := users[id].version + 1) else users[id];
      return Ok(|due|);
    }

    method DeleteUser(id: int, available: bool) returns (r: Result<(), StoreError>)
      modifies this`users, this`credentials
      ensures r == if !available then Err(Storage) else if id in old(users) then Ok(()) else Err(NotFound)
      ensures View() == if r.Ok? then Deleted(old(View()), id) else old(View())
    {
      if !available {
        return Err(Storage);
      }
      if id !in users {
        return Err(NotFound);
      }
      users := users - {id};
      credentials := map c | c in credentials && credentials[c].userId != id :: credentials[c];
      return Ok(());
    }

    // RotateCredential: version bump, revoke, insert; a stale version aborts before any credential is touched.
    // The row is read back after the commit.
    method RotateCredential(id: int, hash: string, expected: int, fault: TxFault, readBack: bool)
      returns (r: Result<(), StoreError>)
      modifies this
      ensures var rotated := fault == NoFault && AtVersion(old(View()), id, expected);
        && View() == (if rotated then Rotated(old(View()), id, hash) else old(View()))
        && (r.Ok? <==> rotated && readBack)
      ensures r.Err? ==> r.error == if !AtVersion(old(View()), id, expected) && fault in {NoFault, AtCommit}
                                     then Refusal(old(View()), id) else Storage
    {
      if fault == AtFirst {
        return Err(Storage);
      }
      if !(id in users && users[id].version == expected) {
        return Err(if fault == AtSecond then Storage else if id in users then Conflict else NotFound);
      }
      var row := users[id];
      var users' := users[id := row.(version := row.version + 1)];
      var credentials' := Revoked(credentials, id);
      if fault == AtSecond {
        return Err(Storage);
      }
      credentials' := credentials'[nextCredential := CredentialRow(id, hash, true)];
      if fault == AtCommit {
        return Err(Storage);
      }
      users, credentials, nextCredential := users', credentials', nextCredential + 1;
      return if readBack then Ok(()) else Err(Storage);
    }

    // ListEngineUsers: the join of live users with active credentials, one row per matching pair.
    method ListEngineUsers(now: int) returns (rows: seq<EngineUser>)
      ensures Lists(View(), now, rows)
    {
      hide ListsFrom;
      rows := [];
      var todo := credentials.Keys;
      ghost var done: set<int>, listed: seq<int> := {}, [];
      ListsNothing(View(), now);
      while todo != {}
        invariant done + todo == credentials.Keys && done !! todo
        invariant ListsFrom(View(), now, done, listed, rows)
        decreases |todo|
      {
        var c := Pick(todo);
        ListsNext(View(), now, done, listed, rows, c);
        if Joined(View(), now, c) {
          rows := rows + [JoinedRow(View(), c)];
          listed := listed + [c];
        }
        done, todo := done + {c}, todo - {c};
      }
      assert done == credentials.Keys;
    }
  }

  // ---- what the join lists ----

  predicate Joined(t: Tables, now: int, c: int) {
    && c in t.credentials && t.credentials[c].active
    && t.credentials[c].userId in t.users
    && Live(UserOf(t.credentials[c].userId, t.users[t.credentials[c].userId]), now)
  }

  function JoinedRow(t: Tables, c: int): EngineUser
    requires c in t.credentials && t.credentials[c].userId in t.users
  {
    var id := t.credentials[c].userId;
    EngineUser(UserOf(id, t.users[id]), t.credentials[c].engineHash)
  }

  // listed names the credentials behind the rows: exactly the joined ones among cs, each once.
  ghost predicate ListsFrom(t: Tables, now: int, cs: set<int>, listed: seq<int>, rows: seq<EngineUser>) {
    && |listed| == |rows| && Distinct(listed)
    && (forall i | 0 <= i < |rows| :: listed[i] in cs && Joined(t, now, listed[i]) && rows[i] == JoinedRow(t, listed[i]))
    && (forall c | c in cs && Joined(t, now, c) :: c in listed)
  }

  lemma ListsNothing(t: Tables, now: int)
    ensures ListsFrom(t, now, {}, [], [])
  {
  }

  lemma ListsNext(t: Tables, now: int, cs: set<int>, listed: seq<int>, rows: seq<EngineUser>, c: int)
    requires ListsFrom(t, now, cs, listed, rows) && c !in cs
    ensures if Joined(t, now, c) then ListsFrom(t, now, cs + {c}, listed + [c], rows + [JoinedRow(t, c)])
            else ListsFrom(t, now, cs + {c}, listed, rows)
  {
    hide Live, UserOf;
    forall i | 0 <= i < |listed| ensures listed[i] != c {
      assert listed[i] in cs;
    }
  }

  ghost predicate Lists(t: Tables, now: int, rows: seq<EngineUser>) {
    exists listed :: ListsFrom(t, now, t.credentials.Keys, listed, rows)
  }

  // ---- the invariant of every store the services can reach ----

  predicate GoodLimits(l: Limits) {
    var ps := SplitProtocols(l.protocols);
    && ps != [] && ValidProtocols(ps)
    && l.downloadBPS >= 0 && l.uploadBPS >= 0 && l.maxConnections >= 0
    && (l.quotaDaily == 0 || l.quotaDaily >= MIB)
    && (l.quotaMonthly == 0 || l.quotaMonthly >= MIB)
  }

  predicate GoodRow(row: UserRow) {
    && ValidUsername(row.username)
    && row.status in {"active", "disabled", "expired"}
    && GoodLimits(row.limits)
    && row.version >= 1
  }

  predicate IsActive(t: Tables, c: int, id: int) {
    c in t.credentials && t.credentials[c].active && t.credentials[c].userId == id
  }

  ghost predicate OneActiveEach(t: Tables) {
    && (forall id | id in t.users :: exists c :: IsActive(t, c, id))
    && (forall c, d, id | IsActive(t, c, id) && IsActive(t, d, id) :: c == d)
  }

  ghost predicate GoodStore(t: Tables) {
    && t.nextUser >= 1
    && (forall id | id in t.users :: 1 <= id < t.nextUser && GoodRow(t.users[id]))
    && (forall a, b | a in t.users && b in t.users && t.users[a].username == t.users[b].username :: a == b)
    && (forall c | c in t.credentials ::
          c < t.nextCredential && t.credentials[c].userId in t.users && ValidHash(t.credentials[c].engineHash))
    && OneActiveEach(t)
  }

  lemma CreateKeeps(t: Tables, username: string, limits: Limits, hash: string)
    requires GoodStore(t) && !NameTaken(t, username) && ValidUsername(username) && GoodLimits(limits) && ValidHash(hash)
    ensures GoodStore(Created(t, username, limits, hash))
  {
    hide GoodLimits, ValidHash, ValidUsername;
    var t' := Created(t, username, limits, hash);
    forall id | id in t'.users ensures exists c :: IsActive(t', c, id) {
      if id == t.nextUser {
        assert IsActive(t', t.nextCredential, id);
      } else {
        var c :| IsActive(t, c, id);
        assert IsActive(t', c, id);
      }
    }
    forall c, d, id | IsActive(t', c, id) && IsActive(t', d, id) ensures c == d {
      assert c != t.nextCredential ==> IsActive(t, c, id);
      assert d != t.nextCredential ==> IsActive(t, d, id);
    }
  }

  // Any change of a row that keeps its name and raises its version.
  lemma RowChangeKeeps(t: Tables, t': Tables)
    requires GoodStore(t)
    requires t'.users.Keys == t.users.Keys && t'.credentials == t.credentials
    requires t'.nextUser == t.nextUser && t'.nextCredential == t.nextCredential
    requires forall id | id in t.users :: t'.users[id].username == t.users[id].username && GoodRow(t'.users[id])
    ensures GoodStore(t')
  {
    hide GoodRow, ValidHash;
    forall id | id in t'.users ensures exists c :: IsActive(t', c, id) {
      var c :| IsActive(t, c, id);
      assert IsActive(t', c, id);
    }
    forall c, d, id | IsActive(t', c, id) && IsActive(t', d, id) ensures c == d {
      assert IsActive(t, c, id) && IsActive(t, d, id);
    }
  }

  lemma RotateKeeps(t: Tables, id: int, hash: string)
    requires GoodStore(t) && id in t.users && ValidHash(hash)
    ensures GoodStore(Rotated(t, id, hash))
  {
    hide GoodLimits, ValidHash, ValidUsername;
    var t' := Rotated(t, id, hash);
    forall x | x in t'.users ensures exists c :: IsActive(t', c, x) {
      if x == id {
        assert IsActive(t', t.nextCredential, x);
      } else {
        var c :| IsActive(t, c, x);
        assert IsActive(t', c, x);
      }
    }
    forall c, d, x | IsActive(t', c, x) && IsActive(t', d, x) ensures c == d {
      assert c != t.nextCredential ==> IsActive(t, c, x);
      assert d != t.nextCredential ==> IsActive(t, d, x);
    }
  }

  lemma DeleteKeeps(t: Tables, id: int)
    requires GoodStore(t)
    ensures GoodStore(Deleted(t, id))
  {
    hide GoodRow, ValidHash;
    var t' := Deleted(t, id);
    forall x | x in t'.users ensures exists c :: IsActive(t', c, x) {
      var c :| IsActive(t, c, x);
      assert IsActive(t', c, x);
    }
    forall c, d, x | IsActive(t', c, x) && IsActive(t', d, x) ensures c == d {
      assert IsActive(t, c, x) && IsActive(t, d, x);
    }
  }

  // ---- every good store compiles ----

  lemma {:induction false} BuiltFromLive(rows: seq<EngineUser>, now: int)
    requires forall i | 0 <= i < |rows| :: Live(rows[i].user, now)
    ensures BuiltUsers(rows, now) == seq(|rows|, i requires 0 <= i < |rows| => EngineUserOf(rows[i]))
    decreases |rows|
  {
    if rows != [] {
      BuiltFromLive(rows[..|rows| - 1], now);
    }
  }

  lemma ProtocolsUnchanged(ps: seq<string>)
    requires ValidProtocols(ps)
    ensures EngineProtocols(ps) == ps
    decreases |ps|
  {
    if ps != [] {
      ProtocolsUnchanged(ps[..|ps| - 1]);
    }
  }

  lemma GoodRowBuilds(id: int, row: UserRow, hash: string)
    requires id >= 1 && GoodRow(row)
    ensures ValidUser(EngineUserOf(EngineUser(UserOf(id, row), hash)))
  {
    hide ValidUsername;
    ProtocolsUnchanged(SplitProtocols(row.limits.protocols));
  }

  lemma ListedUsersValid(t: Tables, now: int, listed: seq<int>, rows: seq<EngineUser>)
    requires GoodStore(t) && ListsFrom(t, now, t.credentials.Keys, listed, rows)
    ensures ValidState(Built(rows, now))
  {
    hide GoodRow, ValidUser, ValidHash;
    BuiltFromLive(rows, now);
    var us := BuiltUsers(rows, now);
    forall i | 0 <= i < |us| ensures ValidUser(us[i]) {
      var id := t.credentials[listed[i]].userId;
      GoodRowBuilds(id, t.users[id], t.credentials[listed[i]].engineHash);
    }
    forall i, j | 0 <= i < j < |us|
      ensures us[i].username != us[j].username && us[i].recordNumber != us[j].recordNumber
    {
      ListedUsersDiffer(t, now, listed, rows, i, j);
    }
  }

  lemma ListedUsersDiffer(t: Tables, now: int, listed: seq<int>, rows: seq<EngineUser>, i: int, j: int)
    requires GoodStore(t) && ListsFrom(t, now, t.credentials.Keys, listed, rows)
    requires 0 <= i < j < |rows|
    ensures rows[i].user.username != rows[j].user.username && rows[i].user.id != rows[j].user.id
  {
    hide GoodRow, ValidHash, Live, SplitProtocols;
    var a, b := t.credentials[listed[i]].userId, t.credentials[listed[j]].userId;
    assert IsActive(t, listed[i], a) && IsActive(t, listed[j], b);
    assert listed[i] != listed[j];
  }

  // Whatever the time, what ListEngineUsers returns builds a valid state, with every live row under
  // the hash of its one active credential, and Render accepts it under valid settings.
  lemma GoodStoreCompiles(t: Tables, now: int, rows: seq<EngineUser>, st: Settings, build: string)
    requires GoodStore(t) && Lists(t, now, rows)
    ensures ValidState(Built(rows, now))
    ensures forall id | id in t.users && Live(UserOf(id, t.users[id]), now) ::
              exists c :: IsActive(t, c, id) && EngineUser(UserOf(id, t.users[id]), t.credentials[c].engineHash) in rows
    ensures ValidSettings(st) ==> Rendered(Built(rows, now), st, build).Ok?
  {
    hide GoodRow, ValidState, ValidHash, ValidSettings, Rendered, Built, Live, UserOf, GoodStore, ListsFrom;
    var listed :| ListsFrom(t, now, t.credentials.Keys, listed, rows);
    ListedUsersValid(t, now, listed, rows);
    forall id | id in t.users && Live(UserOf(id, t.users[id]), now)
      ensures exists c :: IsActive(t, c, id) && EngineUser(UserOf(id, t.users[id]), t.credentials[c].engineHash) in rows
    {
      LiveUserListed(t, now, listed, rows, id);
    }
    ListedUsersRender(t, now, listed, rows, st, build);
  }

  lemma ListedUsersRender(t: Tables, now: int, listed: seq<int>, rows: seq<EngineUser>, st: Settings, build: string)
    requires GoodStore(t) && ListsFrom(t, now, t.credentials.Keys, listed, rows)
    ensures ValidSettings(st) ==> Rendered(Built(rows, now), st, build).Ok?
  {
    hide GoodRow, ValidState, ValidHash, ValidSettings, Rendered, Built, Live, UserOf;
    ListedUsersValid(t, now, listed, rows);
    RendersExactlyWhen(rows, now, st, build);
  }

  lemma LiveUserListed(t: Tables, now: int, listed: seq<int>, rows: seq<EngineUser>, id: int)
    requires GoodStore(t) && ListsFrom(t, now, t.credentials.Keys, listed, rows)
    requires id in t.users && Live(UserOf(id, t.users[id]), now)
    ensures exists c :: IsActive(t, c, id) && EngineUser(UserOf(id, t.users[id]), t.credentials[c].engineHash) in rows
  {
    hide GoodRow, ValidHash, Live, UserOf;
    var c :| IsActive(t, c, id);
    assert Joined(t, now, c);
    var i :| 0 <= i < |listed| && listed[i] == c;
    assert rows[i] == JoinedRow(t, c);
  }
}
