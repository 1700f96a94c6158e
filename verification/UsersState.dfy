// internal/users/state.go: persisted rows to desired state, and what the compiled text of a row
// set means.
module UsersState {

  import opened Wrappers
  import opened Engine
  import opened Config
  import opened ConfigReader
  import opened Store

  // ---- the builder as functions ----

  function EngineQuota(u: ProxyUser): Option<Quota> {
    if u.quotaMonthly > 0 then Some(Quota("monthly", u.quotaMonthly, "all"))
    else if u.quotaDaily > 0 then Some(Quota("daily", u.quotaDaily, "all"))
    else None
  }

  function EngineProtocols(ps: seq<string>): seq<string> {
    if ps == [] then [] else
      EngineProtocols(ps[..|ps| - 1]) + (if KnownProtocol(ps[|ps| - 1]) then [ps[|ps| - 1]] else [])
  }

  function EngineUserOf(row: EngineUser): User {
    var u := row.user;
    User(u.username, row.engineHash, u.id, EngineProtocols(u.protocols), u.downloadBPS, u.uploadBPS, EngineQuota(u))
  }

  function BuiltUsers(rows: seq<EngineUser>, now: int): seq<User> {
    if rows == [] then [] else
      var row := rows[|rows| - 1];
      BuiltUsers(rows[..|rows| - 1], now) + (if Live(row.user, now) then [EngineUserOf(row)] else [])
  }

  function Built(rows: seq<EngineUser>, now: int): State {
    State(BuiltUsers(rows, now))
  }

  // ---- the loops ----

  method ToEngineProtocols(ps: seq<string>) returns (out: seq<string>)
    ensures out == EngineProtocols(ps)
  {
    out := [];
    for i := 0 to |ps|
      invariant out == EngineProtocols(ps[..i])
    {
      assert ps[..i + 1][..i] == ps[..i];
      if KnownProtocol(ps[i]) {
        out := out + [ps[i]];
      }
    }
    assert ps[..|ps|] == ps;
  }

  method BuildEngineState(rows: seq<EngineUser>, now: int) returns (s: State)
    ensures s == Built(rows, now)
  {
    var users: seq<User> := [];
    for i := 0 to |rows|
      invariant users == BuiltUsers(rows[..i], now)
    {
      var u := rows[i].user;
      assert rows[..i + 1][..i] == rows[..i];
      if u.status != "active" {
        continue;
      }
      if u.expiresAt.Some? && !(u.expiresAt.value > now) {
        continue;
      }
      var protocols := ToEngineProtocols(u.protocols);
      users := users + [User(u.username, rows[i].engineHash, u.id, protocols, u.downloadBPS, u.uploadBPS, EngineQuota(u))];
    }
    assert rows[..|rows|] == rows;
    return State(users);
  }

  // ---- what the built state holds ----

  lemma {:induction false} ProtocolsKept(ps: seq<string>)
    ensures forall p :: p in EngineProtocols(ps) <==> p in ps && KnownProtocol(p)
    decreases |ps|
  {
    if ps != [] {
      ProtocolsKept(ps[..|ps| - 1]);
      assert ps == ps[..|ps| - 1] + [ps[|ps| - 1]];
    }
  }

  lemma {:induction false} LiveRowsKept(rows: seq<EngineUser>, now: int)
    ensures forall u :: u in BuiltUsers(rows, now) <==> exists i | 0 <= i < |rows| :: Live(rows[i].user, now) && u == EngineUserOf(rows[i])
    decreases |rows|
  {
    if rows != [] {
      var prefix, last := rows[..|rows| - 1], rows[|rows| - 1];
      LiveRowsKept(prefix, now);
      forall u
        ensures u in BuiltUsers(rows, now) <==> exists i | 0 <= i < |rows| :: Live(rows[i].user, now) && u == EngineUserOf(rows[i])
      {
        if i :| 0 <= i < |prefix| && Live(prefix[i].user, now) && u == EngineUserOf(prefix[i]) {
          assert rows[i] == prefix[i];
        }
        if i :| 0 <= i < |rows| && Live(rows[i].user, now) && u == EngineUserOf(rows[i]) {
          assert i < |prefix| ==> prefix[i] == rows[i];
        }
      }
    }
  }

  // The policy a live row asks for, read off the row itself.
  function RowEntry(row: EngineUser): Entry {
    var u := row.user;
    Entry(u.username, row.engineHash, "http" in u.protocols, "socks5" in u.protocols, u.downloadBPS, u.uploadBPS,
          if u.quotaMonthly > 0 then Some(Rule("all", u.id, "monthly", u.quotaMonthly / MIB))
          else if u.quotaDaily > 0 then Some(Rule("all", u.id, "daily", u.quotaDaily / MIB))
          else None)
  }

  ghost function RowPolicy(rows: seq<EngineUser>, now: int): set<Entry> {
    set row | row in rows && Live(row.user, now) :: RowEntry(row)
  }

  lemma BuiltPolicy(rows: seq<EngineUser>, now: int)
    ensures Policy(Built(rows, now)) == RowPolicy(rows, now)
  {
    LiveRowsKept(rows, now);
    forall row | row in rows ensures EntryOf(EngineUserOf(row)) == RowEntry(row) {
      ProtocolsKept(row.user.protocols);
    }
    forall e | e in Policy(Built(rows, now)) ensures e in RowPolicy(rows, now) {
      var u :| u in BuiltUsers(rows, now) && e == EntryOf(u);
      var i :| 0 <= i < |rows| && Live(rows[i].user, now) && u == EngineUserOf(rows[i]);
      assert rows[i] in rows;
    }
    forall e | e in RowPolicy(rows, now) ensures e in Policy(Built(rows, now)) {
      var row :| row in rows && Live(row.user, now) && e == RowEntry(row);
      var i :| 0 <= i < |rows| && rows[i] == row;
      assert EngineUserOf(row) in BuiltUsers(rows, now);
    }
  }

  // From rows to the loaded engine: the text compiled from any rows loads to exactly the policy of
  // the live rows, and admits a name on a service exactly when a live row of that name lists it.
  lemma CompilationPreservesMeaning(rows: seq<EngineUser>, now: int, st: Settings, build: string)
    requires Rendered(Built(rows, now), st, build).Ok? && PlainSettings(st, build)
    ensures var loaded := Load(Rendered(Built(rows, now), st, build).value);
      && loaded.Some?
      && LoadedPolicy(loaded.value) == RowPolicy(rows, now)
      && NothingElse(loaded.value)
      && (forall name :: Admits(loaded.value, "proxy", name) <==>
            exists row :: row in rows && row.user.username == name && "http" in row.user.protocols
              && row.user.status == "active" && (row.user.expiresAt.Some? ==> row.user.expiresAt.value > now))
      && (forall name :: Admits(loaded.value, "socks", name) <==>
            exists row :: row in rows && row.user.username == name && "socks5" in row.user.protocols
              && row.user.status == "active" && (row.user.expiresAt.Some? ==> row.user.expiresAt.value > now))
  {
    hide Rendered, Load, Built, NothingElse;
    ReadingBack(Built(rows, now), st, build);
    BuiltPolicy(rows, now);
    AdmissionFromPolicy(rows, now, Load(Rendered(Built(rows, now), st, build).value).value);
  }

  lemma AdmissionFromPolicy(rows: seq<EngineUser>, now: int, c: Loaded)
    requires LoadedPolicy(c) == RowPolicy(rows, now)
    ensures forall name :: Admits(c, "proxy", name) <==>
              exists row :: row in rows && Live(row.user, now) && row.user.username == name && "http" in row.user.protocols
    ensures forall name :: Admits(c, "socks", name) <==>
              exists row :: row in rows && Live(row.user, now) && row.user.username == name && "socks5" in row.user.protocols
  {
    forall name | name in c.passwords
      ensures exists row :: row in rows && Live(row.user, now) && RowEntry(row) == EntryAt(c, name)
    {
      assert EntryAt(c, name) in LoadedPolicy(c);
    }
    forall row | row in rows && Live(row.user, now)
      ensures row.user.username in c.passwords && EntryAt(c, row.user.username) == RowEntry(row)
    {
      assert RowEntry(row) in RowPolicy(rows, now);
      assert RowEntry(row) in LoadedPolicy(c);
      var name :| name in c.passwords && EntryAt(c, name) == RowEntry(row);
    }
  }

  // Rendering the built state succeeds exactly when the settings, the state and every hash of a
  // live row are valid.
  lemma RendersExactlyWhen(rows: seq<EngineUser>, now: int, st: Settings, build: string)
    ensures Rendered(Built(rows, now), st, build).Ok? <==>
      && ValidSettings(st) && ValidState(Built(rows, now))
      && forall i | 0 <= i < |rows| :: Live(rows[i].user, now) ==> ValidHash(rows[i].engineHash)
  {
    hide ValidSettings, ValidState, ConfigLines, ValidHash;
    var s := Built(rows, now);
    var us := SortByName(s.users);
    SortSorts(s.users);
    LiveRowsKept(rows, now);
    if ValidSettings(st) && ValidState(s) {
      if FirstBadHash(us).None? {
        forall i | 0 <= i < |rows| && Live(rows[i].user, now) ensures ValidHash(rows[i].engineHash) {
          assert EngineUserOf(rows[i]) in s.users;
          assert EngineUserOf(rows[i]) in multiset(us);
          var k :| 0 <= k < |us| && us[k] == EngineUserOf(rows[i]);
        }
      } else {
        var k :| 0 <= k < |us| && !ValidHash(us[k].engineHash);
        assert us[k] in multiset(s.users);
        assert us[k] in s.users;
        var i :| 0 <= i < |rows| && Live(rows[i].user, now) && us[k] == EngineUserOf(rows[i]);
      }
    }
  }
}
