// What each mutation of the user store changes: its rows and credentials field by field, and the policy of
// the live rows before and after.
module StoreLaws {

  import opened Wrappers
  import opened Engine
  import opened Config
  import opened Store
  import opened UsersState
  import opened UserTables
  import opened UserService

  // ---- the policy of a store ----

  // What the live users ask for, each under the verifier of an active credential of its own.
  ghost function TablePolicy(t: Tables, now: int): set<Entry> {
    set c | c in t.credentials && Joined(t, now, c) :: RowEntry(JoinedRow(t, c))
  }

  // Every listing of the store has its policy.
  lemma ListedPolicy(t: Tables, now: int, rows: seq<EngineUser>)
    requires Lists(t, now, rows)
    ensures RowPolicy(rows, now) == TablePolicy(t, now)
  {
    hide ListsFrom, RowPolicy, TablePolicy;
    var listed :| ListsFrom(t, now, t.credentials.Keys, listed, rows);
    forall e ensures e in RowPolicy(rows, now) <==> e in TablePolicy(t, now) {
      if e in RowPolicy(rows, now) {
        ListedIsJoined(t, now, listed, rows, e);
      }
      if e in TablePolicy(t, now) {
        JoinedIsListed(t, now, listed, rows, e);
      }
    }
  }

  lemma ListedIsJoined(t: Tables, now: int, listed: seq<int>, rows: seq<EngineUser>, e: Entry)
    requires ListsFrom(t, now, t.credentials.Keys, listed, rows) && e in RowPolicy(rows, now)
    ensures e in TablePolicy(t, now)
  {
    hide RowEntry, UserOf, Live;
    var row :| row in rows && Live(row.user, now) && RowEntry(row) == e;
    var i :| 0 <= i < |rows| && rows[i] == row;
    assert Joined(t, now, listed[i]) && row == JoinedRow(t, listed[i]);
  }

  lemma JoinedIsListed(t: Tables, now: int, listed: seq<int>, rows: seq<EngineUser>, e: Entry)
    requires ListsFrom(t, now, t.credentials.Keys, listed, rows) && e in TablePolicy(t, now)
    ensures e in RowPolicy(rows, now)
  {
    hide RowEntry, UserOf, Live;
    var c :| c in t.credentials && Joined(t, now, c) && RowEntry(JoinedRow(t, c)) == e;
    assert c in listed;
    var i :| 0 <= i < |listed| && listed[i] == c;
    assert rows[i] in rows && Live(rows[i].user, now);
  }

  // ---- what is stored changes field by field ----

  // Everything about the users other than id is the same in both stores.
  ghost predicate OthersSame(t: Tables, t': Tables, id: int) {
    && (forall x | x != id :: x in t.users <==> x in t'.users)
    && (forall x | x != id && x in t.users :: t'.users[x] == t.users[x])
    && (forall c | c in t.credentials && t.credentials[c].userId != id ::
          c in t'.credentials && t'.credentials[c] == t.credentials[c])
    && (forall c | c in t'.credentials && t'.credentials[c].userId != id ::
          c in t.credentials && t'.credentials[c] == t.credentials[c])
  }

  // A rotation withdraws every earlier credential of the user and leaves the new verifier as the one that is
  // active; apart from that only the user's version changes.
  lemma RotationReplaces(t: Tables, id: int, hash: string)
    requires GoodStore(t) && id in t.users
    ensures var t' := Rotated(t, id, hash);
      && OthersSame(t, t', id)
      && id in t'.users && t'.users[id] == t.users[id].(version := t.users[id].version + 1)
      && (exists c :: IsActive(t', c, id))
      && (forall c | IsActive(t', c, id) :: t'.credentials[c].engineHash == hash)
      && (forall c | c in t.credentials && t.credentials[c].userId == id ::
            c in t'.credentials && t'.credentials[c].userId == id && !t'.credentials[c].active
            && t'.credentials[c].engineHash == t.credentials[c].engineHash)
  {
    hide GoodRow, ValidHash, OneActiveEach;
    assert IsActive(Rotated(t, id, hash), t.nextCredential, id);
  }

  // The patched fields read back as given, the others as they were.
  lemma PatchReadsBack(t: Tables, id: int, p: Patch)
    requires id in t.users && ValidMutated(Merged(UserOf(id, t.users[id]), p))
    ensures var t' := Patched(t, id, p);
      && OthersSame(t, t', id) && t'.credentials == t.credentials && id in t'.users
    ensures var u, u' := UserOf(id, t.users[id]), UserOf(id, Patched(t, id, p).users[id]);
      && u'.id == id && u'.username == u.username && u'.status == u.status && u'.version == u.version + 1
      && u'.protocols == Or(p.protocols, u.protocols)
      && u'.downloadBPS == Or(p.downloadBPS, u.downloadBPS) && u'.uploadBPS == Or(p.uploadBPS, u.uploadBPS)
      && u'.maxConnections == Or(p.maxConnections, u.maxConnections)
      && u'.quotaDaily == Or(p.quotaDaily, u.quotaDaily) && u'.quotaMonthly == Or(p.quotaMonthly, u.quotaMonthly)
      && (p.clearExpiration ==> u'.expiresAt.None?)
      && (!p.clearExpiration ==> u'.expiresAt == if p.expiresAt.Some? then p.expiresAt else u.expiresAt)
  {
    hide JoinProtocols, SplitProtocols, ValidNumbers;
    SplitJoinProtocols(Merged(UserOf(id, t.users[id]), p).protocols);
  }

  // A new user is stored as given, active, under an id and a credential not used before.
  lemma CreationReadsBack(t: Tables, u: ProxyUser, hash: string)
    requires GoodStore(t) && ValidMutated(u)
    ensures var id, t' := t.nextUser, Created(t, u.username, LimitsOf(u), hash);
      && OthersSame(t, t', id) && id !in t.users && id in t'.users
      && UserOf(id, t'.users[id]) == u.(id := id, status := "active", version := 1)
      && (exists c :: IsActive(t', c, id))
      && (forall c | c in t'.credentials && t'.credentials[c].userId == id ::
            c !in t.credentials && t'.credentials[c] == CredentialRow(id, hash, true))
  {
    hide GoodRow, ValidHash, OneActiveEach, JoinProtocols, SplitProtocols, ValidNumbers;
    SplitJoinProtocols(u.protocols);
    assert IsActive(Created(t, u.username, LimitsOf(u), hash), t.nextCredential, t.nextUser);
  }

  // A status change is of the status and the version alone.
  lemma StatusIsWritten(t: Tables, id: int, status: string)
    requires id in t.users
    ensures var t' := StatusSet(t, id, status);
      && OthersSame(t, t', id) && t'.credentials == t.credentials && id in t'.users
      && UserOf(id, t'.users[id])
         == UserOf(id, t.users[id]).(status := status, version := t.users[id].version + 1)
  {
    hide SplitProtocols;
  }

  // Of a deleted user neither the row nor a credential is left, and no one else is touched.
  lemma DeletionIsComplete(t: Tables, id: int)
    ensures var t' := Deleted(t, id);
      && OthersSame(t, t', id) && id !in t'.users
      && (forall c | c in t'.credentials :: t'.credentials[c].userId != id)
      && t'.nextUser == t.nextUser && t'.nextCredential == t.nextCredential
  {
  }

  // A sweep leaves no active user past the expiry, and touches no one else.
  lemma SweepIsComplete(t: Tables, now: int)
    ensures var t' := Swept(t, now);
      && t'.credentials == t.credentials && t'.users.Keys == t.users.Keys
      && forall id | id in t.users ::
           && !PastExpiry(t'.users[id], now)
           && t'.users[id].username == t.users[id].username && t'.users[id].limits == t.users[id].limits
           && (t.users[id].status == "active" && t.users[id].limits.expiresAt.Some? && t.users[id].limits.expiresAt.value <= now ==>
                 t'.users[id].status == "expired" && t'.users[id].version == t.users[id].version + 1)
           && (!(t.users[id].status == "active" && t.users[id].limits.expiresAt.Some? && t.users[id].limits.expiresAt.value <= now) ==>
                 t'.users[id] == t.users[id])
  {
  }

  // ---- the policy changes with it ----

  // The verifier of the user's active credential.
  ghost function VerifierOf(t: Tables, id: int): string
    requires exists c :: IsActive(t, c, id)
  {
    var c :| IsActive(t, c, id);
    t.credentials[c].engineHash
  }

  lemma VerifierIs(t: Tables, id: int, c: int)
    requires OneActiveEach(t) && IsActive(t, c, id)
    ensures VerifierOf(t, id) == t.credentials[c].engineHash
  {
  }

  // What the user asks for at the time, if anything, under a verifier.
  function Asks(u: ProxyUser, hash: string, now: int): set<Entry> {
    if Live(u, now) then {RowEntry(EngineUser(u, hash))} else {}
  }

  ghost function Others(policy: set<Entry>, name: string): set<Entry> {
    set e | e in policy && e.name != name
  }

  lemma NameOfEntry(t: Tables, c: int)
    requires c in t.credentials && t.credentials[c].userId in t.users
    ensures RowEntry(JoinedRow(t, c)).name == t.users[t.credentials[c].userId].username
  {
  }

  // The user's own entry in the policy.
  lemma OwnEntry(t: Tables, id: int, now: int, e: Entry)
    requires GoodStore(t) && id in t.users && e.name == t.users[id].username
    ensures exists c :: IsActive(t, c, id)
    ensures e in TablePolicy(t, now) <==> e in Asks(UserOf(id, t.users[id]), VerifierOf(t, id), now)
  {
    hide RowEntry, UserOf, Live, GoodRow, ValidHash;
    var c :| IsActive(t, c, id);
    VerifierIs(t, id, c);
    NameOfEntry(t, c);
    if e in TablePolicy(t, now) {
      var d :| d in t.credentials && Joined(t, now, d) && RowEntry(JoinedRow(t, d)) == e;
      NameOfEntry(t, d);
      assert IsActive(t, d, id);
    }
    if e in Asks(UserOf(id, t.users[id]), VerifierOf(t, id), now) {
      assert Joined(t, now, c) && RowEntry(JoinedRow(t, c)) == e;
    }
  }

  lemma OtherEntry(t: Tables, t': Tables, id: int, name: string, now: int, e: Entry)
    requires OthersSame(t, t', id) && e.name != name && e in TablePolicy(t, now)
    requires id in t.users ==> t.users[id].username == name
    ensures e in TablePolicy(t', now)
  {
    hide RowEntry, UserOf, Live;
    var c :| c in t.credentials && Joined(t, now, c) && RowEntry(JoinedRow(t, c)) == e;
    NameOfEntry(t, c);
    assert Joined(t', now, c) && JoinedRow(t', c) == JoinedRow(t, c);
  }

  lemma SameOthers(t: Tables, t': Tables, id: int)
    requires OthersSame(t, t', id)
    ensures OthersSame(t', t, id)
  {
  }

  // When only user id changes, the policy keeps the others and has what the user asks for now.
  lemma OneUserChanges(t: Tables, t': Tables, id: int, name: string, now: int)
    requires GoodStore(t) && GoodStore(t') && OthersSame(t, t', id)
    requires id in t.users || id in t'.users
    requires id in t.users ==> t.users[id].username == name
    requires id in t'.users ==> t'.users[id].username == name
    ensures id in t'.users ==> exists c :: IsActive(t', c, id)
    ensures TablePolicy(t', now) == Others(TablePolicy(t, now), name)
              + if id in t'.users then Asks(UserOf(id, t'.users[id]), VerifierOf(t', id), now) else {}
  {
    hide RowEntry, UserOf, Live, GoodRow, ValidHash, TablePolicy, VerifierOf, Asks, OthersSame;
    SameOthers(t, t', id);
    var asks := if id in t'.users then Asks(UserOf(id, t'.users[id]), VerifierOf(t', id), now) else {};
    forall e ensures e in TablePolicy(t', now) <==> e in Others(TablePolicy(t, now), name) + asks {
      if e.name == name {
        if id in t'.users {
          OwnEntry(t', id, now, e);
        } else {
          GoneName(t, t', id, name, now, e);
        }
      } else {
        if e in TablePolicy(t, now) {
          OtherEntry(t, t', id, name, now, e);
        }
        if e in TablePolicy(t', now) {
          OtherEntry(t', t, id, name, now, e);
        }
        if id in t'.users {
          AskedName(UserOf(id, t'.users[id]), VerifierOf(t', id), now, e);
          NameKept(id, t'.users[id]);
        }
      }
    }
  }

  lemma NameKept(id: int, row: UserRow)
    ensures UserOf(id, row).username == row.username
  {
  }

  lemma AskedName(u: ProxyUser, hash: string, now: int, e: Entry)
    ensures e in Asks(u, hash, now) ==> e.name == u.username
  {
  }

  lemma GoneName(t: Tables, t': Tables, id: int, name: string, now: int, e: Entry)
    requires GoodStore(t) && OthersSame(t, t', id) && id in t.users && id !in t'.users
    requires t.users[id].username == name && e.name == name
    ensures e !in TablePolicy(t', now)
  {
    hide RowEntry, UserOf, Live, GoodRow, ValidHash;
    if e in TablePolicy(t', now) {
      var c :| c in t'.credentials && Joined(t', now, c) && RowEntry(JoinedRow(t', c)) == e;
      NameOfEntry(t', c);
      assert false;
    }
  }

  // ---- one mutation, one change of policy ----

  // What a mutation must be for the store to take it.
  predicate Takes(t: Tables, m: Mutation) {
    match m
    case MCreate(username, limits, hash) =>
      !NameTaken(t, username) && ValidUsername(username) && GoodLimits(limits) && ValidHash(hash)
    case MPatch(id, patch) => id in t.users && ValidMutated(Merged(UserOf(id, t.users[id]), patch))
    case MStatus(id, status) => id in t.users && status in {"active", "disabled"}
    case MRotate(id, hash) => id in t.users && ValidHash(hash)
    case MSweep(_) => true
    case MDelete(id) => id in t.users
  }

  ghost predicate RunsOut(t: Tables, name: string, time: int) {
    exists id :: id in t.users && t.users[id].username == name && PastExpiry(t.users[id], time)
  }

  // The policy a mutation leaves, in terms of the users and the policy before it.
  ghost function PolicyAfter(t: Tables, m: Mutation, now: int): set<Entry>
    requires GoodStore(t) && Takes(t, m)
  {
    var policy := TablePolicy(t, now);
    match m
    case MCreate(username, limits, hash) =>
      policy + Asks(UserOf(t.nextUser, UserRow(username, "active", limits, 1)), hash, now)
    case MPatch(id, patch) =>
      var u := UserOf(id, t.users[id]);
      Others(policy, u.username) + Asks(Merged(u, patch), VerifierOf(t, id), now)
    case MStatus(id, status) =>
      var u := UserOf(id, t.users[id]);
      Others(policy, u.username) + (if status == "active" then Asks(u.(status := "active"), VerifierOf(t, id), now) else {})
    case MRotate(id, hash) =>
      set e | e in policy :: if e.name == t.users[id].username then e.(hash := hash) else e
    case MSweep(time) => set e | e in policy && !RunsOut(t, e.name, time)
    case MDelete(id) => Others(policy, t.users[id].username)
  }

  lemma PolicyFollows(t: Tables, m: Mutation, now: int)
    requires GoodStore(t) && Takes(t, m) && GoodStore(Apply(t, m))
    ensures TablePolicy(Apply(t, m), now) == PolicyAfter(t, m, now)
  {
    hide GoodStore, TablePolicy, Asks, Others, VerifierOf, RunsOut, ValidMutated, Merged, ValidHash, GoodLimits;
    match m
    case MCreate(username, limits, hash) => CreationEnters(t, username, limits, hash, now);
    case MPatch(id, patch) => PatchReplaces(t, id, patch, now);
    case MStatus(id, status) => StatusDecides(t, id, status, now);
    case MRotate(id, hash) => RotationSwaps(t, id, hash, now);
    case MSweep(time) => SweepRemoves(t, time, now);
    case MDelete(id) => DeletionRemoves(t, id, now);
  }

  lemma CreationEnters(t: Tables, username: string, limits: Limits, hash: string, now: int)
    requires GoodStore(t) && !NameTaken(t, username) && GoodStore(Created(t, username, limits, hash))
    ensures TablePolicy(Created(t, username, limits, hash), now)
            == TablePolicy(t, now) + Asks(UserOf(t.nextUser, UserRow(username, "active", limits, 1)), hash, now)
  {
    hide TablePolicy, Asks, Others, VerifierOf, GoodRow, ValidHash, UserOf;
    var t' := Created(t, username, limits, hash);
    OneUserChanges(t, t', t.nextUser, username, now);
    assert IsActive(t', t.nextCredential, t.nextUser);
    VerifierIs(t', t.nextUser, t.nextCredential);
    NewName(t, username, now);
  }

  lemma NewName(t: Tables, name: string, now: int)
    requires !NameTaken(t, name)
    ensures Others(TablePolicy(t, now), name) == TablePolicy(t, now)
  {
    forall e | e in TablePolicy(t, now) ensures e.name != name {
      var c :| c in t.credentials && Joined(t, now, c) && RowEntry(JoinedRow(t, c)) == e;
      NameOfEntry(t, c);
    }
  }

  // A change of the row alone leaves the verifier.
  lemma SameVerifier(t: Tables, t': Tables, id: int)
    requires GoodStore(t) && GoodStore(t') && t.credentials == t'.credentials && id in t.users && id in t'.users
    ensures exists c :: IsActive(t, c, id)
    ensures exists c :: IsActive(t', c, id)
    ensures VerifierOf(t', id) == VerifierOf(t, id)
  {
    hide GoodRow, ValidHash;
    var c :| IsActive(t, c, id);
    assert IsActive(t', c, id);
    VerifierIs(t, id, c);
    VerifierIs(t', id, c);
  }

  lemma PatchReplaces(t: Tables, id: int, patch: Patch, now: int)
    requires GoodStore(t) && id in t.users && ValidMutated(Merged(UserOf(id, t.users[id]), patch))
    requires GoodStore(Patched(t, id, patch))
    ensures exists c :: IsActive(t, c, id)
    ensures var u := UserOf(id, t.users[id]);
      TablePolicy(Patched(t, id, patch), now)
      == Others(TablePolicy(t, now), u.username) + Asks(Merged(u, patch), VerifierOf(t, id), now)
  {
    hide GoodStore, TablePolicy, Others, VerifierOf, ValidMutated, Merged, OthersSame, Live, RowEntry;
    var u, t' := UserOf(id, t.users[id]), Patched(t, id, patch);
    PatchReadsBack(t, id, patch);
    SameVerifier(t, t', id);
    OneUserChanges(t, t', id, u.username, now);
    PatchedIs(t, id, patch);
    VersionIsNotAsked(Merged(u, patch), VerifierOf(t, id), now);
  }

  lemma PatchedIs(t: Tables, id: int, patch: Patch)
    requires id in t.users && ValidMutated(Merged(UserOf(id, t.users[id]), patch))
    ensures UserOf(id, Patched(t, id, patch).users[id])
            == Merged(UserOf(id, t.users[id]), patch).(version := t.users[id].version + 1)
  {
    hide JoinProtocols, SplitProtocols, ValidNumbers;
    SplitJoinProtocols(Merged(UserOf(id, t.users[id]), patch).protocols);
  }

  lemma VersionIsNotAsked(u: ProxyUser, hash: string, now: int)
    ensures forall v :: Asks(u.(version := v), hash, now) == Asks(u, hash, now)
  {
  }

  lemma StatusDecides(t: Tables, id: int, status: string, now: int)
    requires GoodStore(t) && id in t.users && status in {"active", "disabled"} && GoodStore(StatusSet(t, id, status))
    ensures exists c :: IsActive(t, c, id)
    ensures var u := UserOf(id, t.users[id]);
      TablePolicy(StatusSet(t, id, status), now)
      == Others(TablePolicy(t, now), u.username)
         + if status == "active" then Asks(u.(status := "active"), VerifierOf(t, id), now) else {}
  {
    hide GoodStore, TablePolicy, Others, VerifierOf, RowEntry;
    var u, t' := UserOf(id, t.users[id]), StatusSet(t, id, status);
    SameVerifier(t, t', id);
    OneUserChanges(t, t', id, u.username, now);
    VersionIsNotAsked(u.(status := status), VerifierOf(t, id), now);
    assert UserOf(id, t'.users[id]) == u.(status := status).(version := u.version + 1);
  }

  lemma RotationSwaps(t: Tables, id: int, hash: string, now: int)
    requires GoodStore(t) && id in t.users && GoodStore(Rotated(t, id, hash))
    ensures TablePolicy(Rotated(t, id, hash), now)
            == set e | e in TablePolicy(t, now) :: if e.name == t.users[id].username then e.(hash := hash) else e
  {
    hide TablePolicy, VerifierOf, GoodRow, ValidHash, Live, OneActiveEach;
    var name, t' := t.users[id].username, Rotated(t, id, hash);
    RotationReplaces(t, id, hash);
    OneUserChanges(t, t', id, name, now);
    var c :| IsActive(t', c, id);
    VerifierIs(t', id, c);
    var u, policy := UserOf(id, t.users[id]), TablePolicy(t, now);
    VersionIsNotAsked(u, hash, now);
    assert TablePolicy(t', now) == Others(policy, name) + Asks(u, hash, now) by {
      assert UserOf(id, t'.users[id]) == u.(version := u.version + 1);
    }
    OwnVerifier(t, id, now);
    OnlyVerifierDiffers(u, VerifierOf(t, id), hash, now);
    SwapOne(policy, name, Asks(u, VerifierOf(t, id), now), hash);
  }

  lemma OwnVerifier(t: Tables, id: int, now: int)
    requires GoodStore(t) && id in t.users
    ensures exists c :: IsActive(t, c, id)
    ensures forall e: Entry | e.name == t.users[id].username ::
              e in TablePolicy(t, now) <==> e in Asks(UserOf(id, t.users[id]), VerifierOf(t, id), now)
  {
    hide GoodRow, ValidHash, TablePolicy, Asks, UserOf, VerifierOf;
    var c :| IsActive(t, c, id);
    forall e: Entry | e.name == t.users[id].username
      ensures e in TablePolicy(t, now) <==> e in Asks(UserOf(id, t.users[id]), VerifierOf(t, id), now)
    {
      OwnEntry(t, id, now, e);
    }
  }

  lemma OnlyVerifierDiffers(u: ProxyUser, was: string, hash: string, now: int)
    ensures Asks(u, hash, now) == set e | e in Asks(u, was, now) :: e.(hash := hash)
    ensures forall e | e in Asks(u, was, now) :: e.name == u.username
  {
    hide Live;
    assert RowEntry(EngineUser(u, hash)) == RowEntry(EngineUser(u, was)).(hash := hash);
  }

  lemma SwapOne(policy: set<Entry>, name: string, own: set<Entry>, hash: string)
    requires forall e | e in own :: e.name == name
    requires forall e: Entry | e.name == name :: e in policy <==> e in own
    ensures Others(policy, name) + (set e | e in own :: e.(hash := hash))
            == set e | e in policy :: if e.name == name then e.(hash := hash) else e
  {
    var after := set e | e in policy :: if e.name == name then e.(hash := hash) else e;
    forall x | x in Others(policy, name) ensures x in after {
      assert x == if x.name == name then x.(hash := hash) else x;
    }
    forall e | e in own ensures e.(hash := hash) in after {
      assert e in policy;
    }
  }

  lemma DeletionRemoves(t: Tables, id: int, now: int)
    requires GoodStore(t) && id in t.users && GoodStore(Deleted(t, id))
    ensures TablePolicy(Deleted(t, id), now) == Others(TablePolicy(t, now), t.users[id].username)
  {
    hide GoodStore, TablePolicy, Others, VerifierOf, RowEntry;
    OneUserChanges(t, Deleted(t, id), id, t.users[id].username, now);
  }

  lemma SweepRemoves(t: Tables, time: int, now: int)
    requires GoodStore(t)
    ensures TablePolicy(Swept(t, time), now) == set e | e in TablePolicy(t, now) && !RunsOut(t, e.name, time)
  {
    hide GoodRow, ValidHash, OneActiveEach, RowEntry, UserOf;
    var t' := Swept(t, time);
    forall c | c in t.credentials
      ensures Joined(t', now, c) <==> Joined(t, now, c) && !PastExpiry(t.users[t.credentials[c].userId], time)
      ensures Joined(t', now, c) ==> JoinedRow(t', c) == JoinedRow(t, c)
      ensures Joined(t, now, c) ==>
                (PastExpiry(t.users[t.credentials[c].userId], time) <==> RunsOut(t, RowEntry(JoinedRow(t, c)).name, time))
    {
      SweptRow(t, time, c, now);
    }
  }

  lemma SweptRow(t: Tables, time: int, c: int, now: int)
    requires GoodStore(t) && c in t.credentials
    ensures var t' := Swept(t, time);
      && (Joined(t', now, c) <==> Joined(t, now, c) && !PastExpiry(t.users[t.credentials[c].userId], time))
      && (Joined(t', now, c) ==> JoinedRow(t', c) == JoinedRow(t, c))
      && (Joined(t, now, c) ==>
            (PastExpiry(t.users[t.credentials[c].userId], time) <==> RunsOut(t, RowEntry(JoinedRow(t, c)).name, time)))
  {
    hide GoodRow, ValidHash, OneActiveEach, SplitProtocols;
    if c in t.credentials && t.credentials[c].userId in t.users {
      NameOfEntry(t, c);
    }
  }

  // A user that passes the checks of Create is live at once, with the verifier and the limits given.
  lemma NewUserIsLive(t: Tables, u: ProxyUser, hash: string, now: int)
    requires GoodStore(t) && ValidNew(u, now) && !NameTaken(t, u.username) && ValidHash(hash)
    ensures Entry(u.username, hash, "http" in u.protocols, "socks5" in u.protocols, u.downloadBPS, u.uploadBPS,
                  RowEntry(EngineUser(u.(id := t.nextUser), hash)).rule)
            in TablePolicy(Created(t, u.username, LimitsOf(u), hash), now)
  {
    hide TablePolicy, GoodStore, ValidHash, ValidMutated, LimitsOf, NameTaken;
    var t' := Created(t, u.username, LimitsOf(u), hash);
    var row := UserRow(u.username, "active", LimitsOf(u), 1);
    MutatedLimitsGood(u);
    CreateKeeps(t, u.username, LimitsOf(u), hash);
    CreationEnters(t, u.username, LimitsOf(u), hash, now);
    CreationReadsBack(t, u, hash);
    assert UserOf(t.nextUser, row) == u.(id := t.nextUser, status := "active", version := 1);
  }

  // A user that passes the checks of Enable is live once the status is written: the call cannot seem to succeed
  // while the builder of the engine state still leaves the user out.
  lemma EnableTakesEffect(t: Tables, id: int, now: int)
    requires GoodStore(t) && id in t.users && Settable(t.users[id], "active", now)
    ensures exists c :: IsActive(t, c, id)
    ensures RowEntry(EngineUser(UserOf(id, t.users[id]), VerifierOf(t, id))) in TablePolicy(StatusSet(t, id, "active"), now)
  {
    hide TablePolicy, GoodLimits, ValidUsername, ValidHash, VerifierOf, OneActiveEach;
    RowChangeKeeps(t, StatusSet(t, id, "active"));
    StatusDecides(t, id, "active", now);
  }

  // ---- in every run ----

  lemma CommitIsTaken(s: Sys, step: Step)
    requires Inv(s) && Enabled(s, step)
    ensures var s' := Next(s, step);
      || (s'.log == s.log && s'.tables == s.tables)
      || (|s'.log| == |s.log| + 1 && s'.log[..|s.log|] == s.log && Takes(s.tables, s'.log[|s.log|])
          && s'.tables == Apply(s.tables, s'.log[|s.log|]))
  {
    hide GoodStore, ValidHash, ValidUsername, LimitsOf, Merged, GoodLimits, ValidNumbers, ValidProtocols;
    match step
    case Create(u, _, now) =>
      if ValidNew(u, now) {
        MutatedLimitsGood(u);
      }
    case Commit(op) =>
      if s.ops[op].Updating? {
        MergeKeepsVersion(UserOf(s.ops[op].id, s.ops[op].seen), s.ops[op].patch);
      }
    case _ =>
  }

  // Whatever interleaved before it, a step that commits is one mutation the store takes, and the policy of any
  // listing after it is what that mutation makes of the policy before; a step that does not commit changes
  // nothing.
  lemma CommitChangesPolicy(steps: seq<Step>, s: Sys, step: Step, now: int, rows: seq<EngineUser>, rows': seq<EngineUser>)
    requires After(steps) == Some(s) && Enabled(s, step)
    requires Lists(s.tables, now, rows) && Lists(Next(s, step).tables, now, rows')
    ensures var s' := Next(s, step);
      if s'.log == s.log then RowPolicy(rows', now) == RowPolicy(rows, now)
      else
        && |s'.log| == |s.log| + 1 && GoodStore(s.tables) && Takes(s.tables, s'.log[|s.log|])
        && RowPolicy(rows', now) == PolicyAfter(s.tables, s'.log[|s.log|], now)
  {
    hide Next, Enabled, Lists, RowPolicy, TablePolicy, PolicyAfter, Takes, Apply, GoodStore;
    InvHolds(steps);
    StepKeepsInv(s, step);
    CommitIsTaken(s, step);
    ListedPolicy(s.tables, now, rows);
    ListedPolicy(Next(s, step).tables, now, rows');
    if Next(s, step).log != s.log {
      PolicyFollows(s.tables, Next(s, step).log[|s.log|], now);
    }
  }

  // A rotation that commits replaces the user's verifier in the configuration and nothing else.
  lemma CommittedRotation(
      steps: seq<Step>, s: Sys, op: nat, id: int, hash: string, now: int, rows: seq<EngineUser>, rows': seq<EngineUser>)
    requires After(steps) == Some(s) && op in s.ops && s.ops[op].Rotating?
    requires s.ops[op].id == id && s.ops[op].hash == hash && AtVersion(s.tables, id, s.ops[op].expected)
    requires Lists(s.tables, now, rows) && Lists(Next(s, Commit(op)).tables, now, rows')
    ensures RowPolicy(rows', now)
            == set e | e in RowPolicy(rows, now) :: if e.name == s.tables.users[id].username then e.(hash := hash) else e
  {
    hide Lists, RowPolicy, TablePolicy, GoodStore;
    CommitChangesPolicy(steps, s, Commit(op), now, rows, rows');
    ListedPolicy(s.tables, now, rows);
  }
}
