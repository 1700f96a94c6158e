// internal/users/service.go: validation, the read-then-conditional-write operations, and every
// interleaving of them.
module UserService {

  import opened Wrappers
  import opened Engine
  import opened Config
  import opened ConfigReader
  import opened Store
  import opened UsersState
  import opened UserTables

  // ---- inputs and validators ----

  // A partial update: None leaves a field alone.
  datatype Patch = Patch(
    version: int, protocols: Option<seq<string>>, downloadBPS: Option<int>, uploadBPS: Option<int>,
    maxConnections: Option<int>, quotaDaily: Option<int>, quotaMonthly: Option<int>,
    expiresAt: Option<int>, clearExpiration: bool)

  function Or<T>(o: Option<T>, x: T): T {
    if o.Some? then o.value else x
  }

  function Merged(u: ProxyUser, p: Patch): ProxyUser {
    u.(protocols := Or(p.protocols, u.protocols), downloadBPS := Or(p.downloadBPS, u.downloadBPS),
       uploadBPS := Or(p.uploadBPS, u.uploadBPS), maxConnections := Or(p.maxConnections, u.maxConnections),
       quotaDaily := Or(p.quotaDaily, u.quotaDaily), quotaMonthly := Or(p.quotaMonthly, u.quotaMonthly),
       expiresAt := if p.clearExpiration then None else if p.expiresAt.Some? then p.expiresAt else u.expiresAt)
  }

  predicate ValidNumbers(u: ProxyUser) {
    && u.downloadBPS >= 0 && u.uploadBPS >= 0 && u.maxConnections >= 0
    && (u.quotaDaily == 0 || u.quotaDaily >= MIB)
    && (u.quotaMonthly == 0 || u.quotaMonthly >= MIB)
  }

  // validateMutated: what the merged user must satisfy before it is written.
  predicate ValidMutated(u: ProxyUser) {
    u.protocols != [] && ValidProtocols(u.protocols) && ValidNumbers(u)
  }

  predicate ValidNew(u: ProxyUser, now: int) {
    ValidUsername(u.username) && ValidMutated(u) && (u.expiresAt.Some? ==> u.expiresAt.value > now)
  }

  // validateProtocols and validateLimits: the number of errors appended.
  method MutatedErrors(u: ProxyUser) returns (errs: nat)
    ensures errs == 0 <==> ValidMutated(u)
  {
    if u.protocols == [] {
      errs := 1;
    } else {
      errs := ProtocolErrors(u.protocols);
    }
    var limits := [u.downloadBPS, u.uploadBPS, u.maxConnections];
    for i := 0 to 3
      invariant errs == 0 <==> u.protocols != [] && ValidProtocols(u.protocols) && forall k | 0 <= k < i :: limits[k] >= 0
    {
      if limits[i] < 0 {
        errs := errs + 1;
      }
    }
    assert limits[0] == u.downloadBPS && limits[1] == u.uploadBPS && limits[2] == u.maxConnections;
    ghost var before := errs;
    var quotas := [u.quotaDaily, u.quotaMonthly];
    for i := 0 to 2
      invariant errs == 0 <==> before == 0 && forall k | 0 <= k < i :: quotas[k] == 0 || quotas[k] >= MIB
    {
      if quotas[i] != 0 && quotas[i] < MIB {
        errs := errs + 1;
      }
    }
    assert quotas[0] == u.quotaDaily && quotas[1] == u.quotaMonthly;
  }

  lemma MutatedLimitsGood(u: ProxyUser)
    requires ValidMutated(u)
    ensures GoodLimits(LimitsOf(u))
  {
    SplitJoinProtocols(u.protocols);
  }

  // ---- the operations, run without interference ----

  datatype ServiceError = Invalid | UsernameTaken | VersionConflict | Expired | StoreFailed(cause: StoreError)

  function Translate(e: StoreError): ServiceError {
    if e == Conflict then VersionConflict else StoreFailed(e)
  }

  // Which statements of an operation the database executes: the first read, the write, and the statement
  // after it, which reads the written row back or finds out why none matched.
  datatype Database = Database(read: bool, write: bool, second: bool)

  // Why a status change fails, if it does.
  function StatusError(t: Tables, id: int, expected: int, db: Database): ServiceError {
    if !db.read then StoreFailed(Storage)
    else if id !in t.users then StoreFailed(NotFound)
    else if db.write && db.second && t.users[id].version != expected then VersionConflict
    else StoreFailed(Storage)
  }

  // The hook fires once for a mutation that is reported as done, after its commit, and not otherwise. A
  // committed mutation goes without it exactly when reading the row back fails.
  class Service {
    const repo: Repository
    var notified: seq<string>

    constructor (repo: Repository)
      ensures this.repo == repo && notified == []
    {
      this.repo := repo;
      notified := [];
    }

    method Create(u: ProxyUser, hash: string, now: int, fault: TxFault) returns (r: Result<int, ServiceError>)
      modifies this, repo
      ensures r.Ok? <==> ValidNew(u, now) && !NameTaken(old(repo.View()), u.username) && fault == NoFault
      ensures repo.View() == if r.Ok? then Created(old(repo.View()), u.username, LimitsOf(u), hash) else old(repo.View())
      ensures notified == old(notified) + if r.Ok? then ["user.create:" + u.username] else []
      ensures r.Err? ==> r.error == if !ValidNew(u, now) then Invalid
                                     else if fault != AtFirst && NameTaken(old(repo.View()), u.username) then UsernameTaken
                                     else StoreFailed(Storage)
    {
      var named := ValidateUsername(u.username);
      var errs := MutatedErrors(u);
      if !named || errs != 0 || (u.expiresAt.Some? && u.expiresAt.value <= now) {
        return Err(Invalid);
      }
      hide LimitsOf, NameTaken;
      var created := repo.CreateUser(u, hash, fault);
      if created.Err? {
        return Err(if created.error == Conflict then UsernameTaken else StoreFailed(created.error));
      }
      notified := notified + ["user.create:" + u.username];
      return Ok(created.value);
    }

    method Update(id: int, p: Patch, db: Database) returns (r: Result<(), ServiceError>)
      modifies this, repo
      ensures var before := old(repo.View());
        var committed := db.read && db.write && Patchable(before, id, p);
        && repo.View() == (if committed then Patched(before, id, p) else before)
        && (r.Ok? <==> committed && db.second)
        && notified == old(notified) + (if r.Ok? then ["user.update:" + before.users[id].username] else [])
      ensures var before := old(repo.View());
        r.Err? ==> r.error == if !db.read then StoreFailed(Storage)
                              else if id !in before.users then StoreFailed(NotFound)
                              else if p.version == 0 || p.version != before.users[id].version then VersionConflict
                              else if !Patchable(before, id, p) then Invalid
                              else StoreFailed(Storage)
    {
      hide SplitProtocols, LimitsOf, ValidMutated;
      var current := repo.GetUserByID(id, db.read);
      if current.Err? {
        return Err(StoreFailed(current.error));
      }
      if p.version == 0 || p.version != current.value.version {
        return Err(VersionConflict);
      }
      var next := Merged(current.value, p);
      var errs := MutatedErrors(next);
      if errs != 0 {
        return Err(Invalid);
      }
      var updated := repo.UpdateUser(next, db.write, db.second);
      if updated.Err? {
        return Err(Translate(updated.error));
      }
      notified := notified + ["user.update:" + current.value.username];
      return Ok(());
    }

    method Delete(id: int, db: Database) returns (r: Result<(), ServiceError>)
      modifies this, repo
      ensures var before := old(repo.View());
        && (r.Ok? <==> db.read && db.write && id in before.users)
        && repo.View() == (if r.Ok? then Deleted(before, id) else before)
        && notified == old(notified) + (if r.Ok? then ["user.delete:" + before.users[id].username] else [])
        && (r.Err? ==> r.error == StoreFailed(if db.read && id !in before.users then NotFound else Storage))
    {
      var current := repo.GetUserByID(id, db.read);
      if current.Err? {
        return Err(StoreFailed(current.error));
      }
      var deleted := repo.DeleteUser(id, db.write);
      if deleted.Err? {
        return Err(StoreFailed(deleted.error));
      }
      notified := notified + ["user.delete:" + current.value.username];
      return Ok(());
    }

    method RotateCredentials(id: int, hash: string, read: bool, fault: TxFault, readBack: bool)
      returns (r: Result<(), ServiceError>)
      modifies this, repo
      ensures var before := old(repo.View());
        var committed := read && id in before.users && fault == NoFault;
        && repo.View() == (if committed then Rotated(before, id, hash) else before)
        && (r.Ok? <==> committed && readBack)
        && notified == old(notified) + (if r.Ok? then ["user.rotate_credentials:" + before.users[id].username] else [])
        && (r.Err? ==> r.error == StoreFailed(if read && id !in before.users then NotFound else Storage))
    {
      var current := repo.GetUserByID(id, read);
      if current.Err? {
        return Err(StoreFailed(current.error));
      }
      var rotated := repo.RotateCredential(id, hash, current.value.version, fault, readBack);
      if rotated.Err? {
        return Err(Translate(rotated.error));
      }
      notified := notified + ["user.rotate_credentials:" + current.value.username];
      return Ok(());
    }

    // Enable reads the row for its expiry, and Transition reads it once more; check: the first read works.
    method Enable(id: int, expected: int, now: int, check: bool, db: Database) returns (r: Result<(), ServiceError>)
      modifies this, repo
      ensures var before := old(repo.View());
        var passed := check && id in before.users && Settable(before.users[id], "active", now);
        var committed := passed && db.read && db.write && AtVersion(before, id, expected);
        && repo.View() == (if committed then StatusSet(before, id, "active") else before)
        && (r.Ok? <==> committed && db.second)
        && (r.Err? ==> r.error == if passed then StatusError(before, id, expected, db)
                                   else if !check then StoreFailed(Storage)
                                   else if id !in before.users then StoreFailed(NotFound)
                                   else Expired)
        && notified == old(notified) + (if r.Ok? then ["user.enable:" + before.users[id].username] else [])
    {
      var current := repo.GetUserByID(id, check);
      if current.Err? {
        return Err(StoreFailed(current.error));
      }
      var expiry := current.value.expiresAt;
      if expiry.Some? && expiry.value <= now {
        return Err(Expired);
      }
      assert Action("active") + ":" == "user.enable:";
      r := Transition(id, "active", expected, db);
    }

    method Disable(id: int, expected: int, db: Database) returns (r: Result<(), ServiceError>)
      modifies this, repo
      ensures var before := old(repo.View());
        var committed := db.read && db.write && AtVersion(before, id, expected);
        && repo.View() == (if committed then StatusSet(before, id, "disabled") else before)
        && (r.Ok? <==> committed && db.second)
        && (r.Err? ==> r.error == StatusError(before, id, expected, db))
        && notified == old(notified) + (if r.Ok? then ["user.disable:" + before.users[id].username] else [])
    {
      assert Action("disabled") + ":" == "user.disable:";
      r := Transition(id, "disabled", expected, db);
    }

    method Transition(id: int, status: string, expected: int, db: Database) returns (r: Result<(), ServiceError>)
      requires status in {"active", "disabled"}
      modifies this, repo
      ensures var before := old(repo.View());
        var committed := db.read && db.write && AtVersion(before, id, expected);
        && repo.View() == (if committed then StatusSet(before, id, status) else before)
        && (r.Ok? <==> committed && db.second)
        && (r.Err? ==> r.error == StatusError(before, id, expected, db))
        && notified == old(notified) + (if r.Ok? then [Action(status) + ":" + before.users[id].username] else [])
    {
      var current := repo.GetUserByID(id, db.read);
      if current.Err? {
        return Err(StoreFailed(current.error));
      }
      var set_ := repo.SetUserStatus(id, status, expected, db.write, db.second);
      if set_.Err? {
        return Err(Translate(set_.error));
      }
      notified := notified + [Action(status) + ":" + current.value.username];
      return Ok(());
    }

    static function Action(status: string): string {
      if status == "active" then "user.enable" else "user.disable"
    }

    method SweepExpired(now: int, available: bool) returns (r: Result<nat, StoreError>)
      modifies this, repo
      ensures repo.View() == if available then Swept(old(repo.View()), now) else old(repo.View())
      ensures r == if available then Ok(|set id | id in old(repo.users) && PastExpiry(old(repo.users)[id], now)|) else Err(Storage)
      ensures notified == old(notified) + if r.Ok? && r.value > 0 then ["expiry-sweep"] else []
    {
      r := repo.SweepExpired(now, available);
      if r.Ok? && r.value > 0 {
        notified := notified + ["expiry-sweep"];
      }
    }
  }

  const ALICE := ProxyUser(
    id := 0, username := "alice", status := "", protocols := ["http"], downloadBPS := 0, uploadBPS := 0,
    maxConnections := 0, quotaDaily := 0, quotaMonthly := 0, expiresAt := None, version := 0)

  // A user is created and then disabled, with a database that fails once, when the disabled row is read
  // back. The caller gets an error and the hook hears of the creation only, yet the user is disabled.
  method CommittedWithoutNotice() returns (r: Result<(), ServiceError>, repo: Repository, service: Service)
    ensures r == Err(StoreFailed(Storage))
    ensures repo.View() == StatusSet(Created(NO_TABLES, "alice", LimitsOf(ALICE), ""), 1, "disabled")
    ensures service.repo == repo && service.notified == ["user.create:alice"]
  {
    repo := new Repository();
    service := new Service(repo);
    var _ := service.Create(ALICE, "", 0, NoFault);
    assert ValidNew(ALICE, 0) && "user.create:" + "alice" == "user.create:alice";
    r := service.Disable(1, 1, Database(read := true, write := true, second := false));
  }

  // ---- each operation as one atomic change ----

  predicate Patchable(t: Tables, id: int, p: Patch) {
    && id in t.users && p.version != 0 && p.version == t.users[id].version
    && ValidMutated(Merged(UserOf(id, t.users[id]), p))
  }

  function Patched(t: Tables, id: int, p: Patch): Tables
    requires id in t.users
  {
    Updated(t, id, LimitsOf(Merged(UserOf(id, t.users[id]), p)))
  }

  predicate Settable(row: UserRow, status: string, now: int) {
    status == "active" && row.limits.expiresAt.Some? ==> row.limits.expiresAt.value > now
  }

  datatype Mutation =
    | MCreate(username: string, limits: Limits, hash: string)
    | MPatch(id: int, patch: Patch)
    | MStatus(id: int, status: string)
    | MRotate(id: int, hash: string)
    | MSweep(now: int)
    | MDelete(id: int)

  function Apply(t: Tables, m: Mutation): Tables {
    match m
    case MCreate(username, limits, hash) => Created(t, username, limits, hash)
    case MPatch(id, patch) => if id in t.users then Patched(t, id, patch) else t
    case MStatus(id, status) => if id in t.users then StatusSet(t, id, status) else t
    case MRotate(id, hash) => if id in t.users then Rotated(t, id, hash) else t
    case MSweep(now) => Swept(t, now)
    case MDelete(id) => Deleted(t, id)
  }

  // The mutations applied one after the other, each to the tables the previous ones left.
  function Serial(log: seq<Mutation>): Tables {
    if log == [] then NO_TABLES else Apply(Serial(log[..|log| - 1]), log[|log| - 1])
  }

  // ---- interleavings ----

  // An operation between its read and its conditional write, with what it read.
  datatype Op =
    | Updating(id: int, seen: UserRow, patch: Patch, next: ProxyUser)
    | Setting(id: int, status: string, expected: int)
    | Rotating(id: int, hash: string, expected: int)

  // log lists the mutations that succeeded, in commit order.
  datatype Sys = Sys(tables: Tables, ops: map<nat, Op>, log: seq<Mutation>)

  const START := Sys(NO_TABLES, map[], [])

  datatype Step =
    | Create(user: ProxyUser, hash: string, now: int)
    | ReadForUpdate(op: nat, id: int, patch: Patch)
    | ReadForStatus(op: nat, id: int, status: string, expected: int, now: int)
    | ReadForRotate(op: nat, id: int, hash: string)
    | Commit(op: nat)
    | Sweep(now: int)
    | Delete(id: int)

  // Callers supply verifiers of the shape NewEngineHash produces.
  predicate Enabled(s: Sys, step: Step) {
    match step
    case Create(_, hash, _) => ValidHash(hash)
    case ReadForUpdate(op, _, _) => op !in s.ops
    case ReadForStatus(op, _, status, _, _) => op !in s.ops && status in {"active", "disabled"}
    case ReadForRotate(op, _, hash) => op !in s.ops && ValidHash(hash)
    case Commit(op) => op in s.ops
    case Sweep(_) => true
    case Delete(_) => true
  }

  // UpdateUser, SetUserStatus and RotateCredential: write if the row still carries the version read.
  function CommitOp(s: Sys, op: nat): Sys
    requires op in s.ops
  {
    var ops := s.ops - {op};
    match s.ops[op]
    case Updating(id, _, patch, next) =>
      if AtVersion(s.tables, id, next.version)
      then Sys(Updated(s.tables, id, LimitsOf(next)), ops, s.log + [MPatch(id, patch)]) else s.(ops := ops)
    case Setting(id, status, expected) =>
      if AtVersion(s.tables, id, expected)
      then Sys(StatusSet(s.tables, id, status), ops, s.log + [MStatus(id, status)]) else s.(ops := ops)
    case Rotating(id, hash, expected) =>
      if AtVersion(s.tables, id, expected)
      then Sys(Rotated(s.tables, id, hash), ops, s.log + [MRotate(id, hash)]) else s.(ops := ops)
  }

  function Next(s: Sys, step: Step): Sys
    requires Enabled(s, step)
  {
    var t := s.tables;
    match step
    case Create(u, hash, now) =>
      if ValidNew(u, now) && !NameTaken(t, u.username)
      then s.(tables := Created(t, u.username, LimitsOf(u), hash), log := s.log + [MCreate(u.username, LimitsOf(u), hash)])
      else s
    case ReadForUpdate(op, id, patch) =>
      if Patchable(t, id, patch)
      then s.(ops := s.ops[op := Updating(id, t.users[id], patch, Merged(UserOf(id, t.users[id]), patch))]) else s
    case ReadForStatus(op, id, status, expected, now) =>
      if id in t.users && Settable(t.users[id], status, now)
      then s.(ops := s.ops[op := Setting(id, status, expected)]) else s
    case ReadForRotate(op, id, hash) =>
      if id in t.users then s.(ops := s.ops[op := Rotating(id, hash, t.users[id].version)]) else s
    case Commit(op) => CommitOp(s, op)
    case Sweep(now) => s.(tables := Swept(t, now), log := s.log + [MSweep(now)])
    case Delete(id) => if id in t.users then s.(tables := Deleted(t, id), log := s.log + [MDelete(id)]) else s
  }

  function After(steps: seq<Step>): Option<Sys> {
    if steps == [] then Some(START) else
      var before := After(steps[..|steps| - 1]);
      var step := steps[|steps| - 1];
      if before.Some? && Enabled(before.value, step) then Some(Next(before.value, step)) else None
  }

  // ---- the invariant ----

  // A row read at some version is still the stored row unless the version has moved on.
  predicate StillAccurate(t: Tables, id: int, seen: UserRow) {
    id < t.nextUser
    && (id in t.users ==> seen.version <= t.users[id].version && (seen.version == t.users[id].version ==> seen == t.users[id]))
  }

  predicate GoodOp(t: Tables, op: Op) {
    match op
    case Updating(id, seen, patch, next) =>
      StillAccurate(t, id, seen) && next == Merged(UserOf(id, seen), patch) && ValidMutated(next)
    case Setting(_, status, _) => status in {"active", "disabled"}
    case Rotating(_, hash, _) => ValidHash(hash)
  }

  ghost predicate Inv(s: Sys) {
    && GoodStore(s.tables)
    && s.tables == Serial(s.log)
    && forall op | op in s.ops :: GoodOp(s.tables, s.ops[op])
  }

  // Every change of a row raises its version by exactly one; ids are never reused.
  predicate Advances(t: Tables, t': Tables) {
    && t.nextUser <= t'.nextUser
    && (forall id | id in t.users && id in t'.users ::
          t'.users[id] == t.users[id] || t'.users[id].version == t.users[id].version + 1)
    && (forall id | id in t'.users && id !in t.users :: id >= t.nextUser)
  }

  lemma OpsStayGood(t: Tables, t': Tables, op: Op)
    requires GoodOp(t, op) && Advances(t, t')
    ensures GoodOp(t', op)
  {
    hide ValidMutated, ValidHash, Merged, UserOf;
  }

  lemma NextAdvances(s: Sys, step: Step)
    requires Enabled(s, step) && GoodStore(s.tables)
    ensures Advances(s.tables, Next(s, step).tables)
  {
    hide ValidMutated, ValidHash, Merged, UserOf, ValidNew, LimitsOf, Advances, GoodStore, Patchable, Settable,
      Created, Updated, StatusSet, Rotated, Swept, Deleted, NameTaken, AtVersion;
    var t := s.tables;
    StandsStill(t);
    match step
    case Create(u, hash, now) => CreatedAdvances(t, u.username, LimitsOf(u), hash);
    case Commit(op) => CommitAdvances(s, op);
    case Sweep(now) => SweptAdvances(t, now);
    case Delete(id) =>
      if id in t.users {
        DeletedAdvances(t, id);
      }
    case _ =>
  }

  lemma StandsStill(t: Tables)
    ensures Advances(t, t)
  {
  }

  lemma CreatedAdvances(t: Tables, name: string, limits: Limits, hash: string)
    requires GoodStore(t)
    ensures Advances(t, Created(t, name, limits, hash))
  {
    hide GoodRow, ValidHash;
  }

  lemma CommitAdvances(s: Sys, op: nat)
    requires op in s.ops
    ensures Advances(s.tables, CommitOp(s, op).tables)
  {
    hide LimitsOf;
  }

  lemma SweptAdvances(t: Tables, now: int)
    ensures Advances(t, Swept(t, now))
  {
  }

  lemma DeletedAdvances(t: Tables, id: int)
    ensures Advances(t, Deleted(t, id))
  {
  }

  lemma SerialNext(log: seq<Mutation>, m: Mutation)
    ensures Serial(log + [m]) == Apply(Serial(log), m)
  {
    assert (log + [m])[..|log|] == log;
  }

  lemma StoreStaysGood(s: Sys, step: Step)
    requires Inv(s) && Enabled(s, step)
    ensures GoodStore(Next(s, step).tables)
  {
    hide GoodLimits, ValidHash, ValidUsername, ValidMutated, LimitsOf, GoodStore;
    var t, t' := s.tables, Next(s, step).tables;
    match step
    case Create(u, hash, now) =>
      if ValidNew(u, now) && !NameTaken(t, u.username) {
        MutatedLimitsGood(u);
        CreateKeeps(t, u.username, LimitsOf(u), hash);
      }
    case Commit(op) => CommitStaysGood(s, op);
    case Sweep(now) => SweepKeeps(t, now);
    case Delete(id) => DeleteKeeps(t, id);
    case _ =>
  }

  lemma SweepKeeps(t: Tables, now: int)
    requires GoodStore(t)
    ensures GoodStore(Swept(t, now))
  {
    hide GoodLimits, ValidHash, ValidUsername;
    RowChangeKeeps(t, Swept(t, now));
  }

  lemma CommitStaysGood(s: Sys, op: nat)
    requires GoodStore(s.tables) && op in s.ops && GoodOp(s.tables, s.ops[op])
    ensures GoodStore(CommitOp(s, op).tables)
  {
    hide GoodLimits, ValidHash, ValidUsername, ValidMutated, LimitsOf, OneActiveEach;
    match s.ops[op]
    case Updating(id, _, _, next) =>
      MutatedLimitsGood(next);
      if AtVersion(s.tables, id, next.version) {
        RowChangeKeeps(s.tables, Updated(s.tables, id, LimitsOf(next)));
      }
    case Setting(id, status, expected) =>
      if AtVersion(s.tables, id, expected) {
        RowChangeKeeps(s.tables, StatusSet(s.tables, id, status));
      }
    case Rotating(id, hash, expected) =>
      if AtVersion(s.tables, id, expected) {
        RotateKeeps(s.tables, id, hash);
      }
  }

  // The write of an update that read an accurate row is the patch applied to the row stored now.
  lemma CommitIsAtomic(s: Sys, op: nat)
    requires op in s.ops && GoodOp(s.tables, s.ops[op]) && s.tables == Serial(s.log)
    ensures CommitOp(s, op).tables == Serial(CommitOp(s, op).log)
  {
    hide ValidMutated, ValidHash, Merged, LimitsOf;
    match s.ops[op]
    case Updating(id, seen, patch, next) =>
      SerialNext(s.log, MPatch(id, patch));
      assert next.version == seen.version by {
        MergeKeepsVersion(UserOf(id, seen), patch);
      }
    case Setting(id, status, _) => SerialNext(s.log, MStatus(id, status));
    case Rotating(id, hash, _) => SerialNext(s.log, MRotate(id, hash));
  }

  lemma MergeKeepsVersion(u: ProxyUser, p: Patch)
    ensures Merged(u, p).version == u.version && Merged(u, p).id == u.id
  {
  }

  lemma StepKeepsInv(s: Sys, step: Step)
    requires Inv(s) && Enabled(s, step)
    ensures Inv(Next(s, step))
  {
    hide GoodStore, ValidMutated, ValidHash, Merged, LimitsOf, Serial, ValidNew;
    var s' := Next(s, step);
    StoreStaysGood(s, step);
    NextAdvances(s, step);
    forall op | op in s'.ops ensures GoodOp(s'.tables, s'.ops[op]) {
      if op in s.ops {
        OpsStayGood(s.tables, s'.tables, s.ops[op]);
      } else if step.ReadForUpdate? {
        assert StillAccurate(s.tables, step.id, s.tables.users[step.id]) by {
          KnownIds(s.tables);
        }
      }
    }
    match step
    case Create(u, hash, _) => SerialNext(s.log, MCreate(u.username, LimitsOf(u), hash));
    case Commit(op) => CommitIsAtomic(s, op);
    case Sweep(now) => SerialNext(s.log, MSweep(now));
    case Delete(id) => SerialNext(s.log, MDelete(id));
    case _ =>
  }

  lemma KnownIds(t: Tables)
    requires GoodStore(t)
    ensures forall id | id in t.users :: id < t.nextUser
  {
  }

  lemma EmptyStoreGood()
    ensures GoodStore(NO_TABLES)
  {
    assert forall c, id :: !IsActive(NO_TABLES, c, id);
  }

  lemma {:induction false} InvHolds(steps: seq<Step>)
    requires After(steps).Some?
    ensures Inv(After(steps).value)
    decreases |steps|
  {
    if steps == [] {
      EmptyStoreGood();
    } else {
      InvHolds(steps[..|steps| - 1]);
      StepKeepsInv(After(steps[..|steps| - 1]).value, steps[|steps| - 1]);
    }
  }

  // ---- main results ----

  // No lost updates: any interleaving leaves the tables its successful operations would leave if each
  // had run alone, in commit order, on the row as it then stood.
  lemma NoLostUpdates(steps: seq<Step>)
    requires After(steps).Some?
    ensures After(steps).value.tables == Serial(After(steps).value.log)
  {
    InvHolds(steps);
  }

  // The version is an exact change token: between two points of a run a row's version never goes
  // down, and it is the same only if nothing about the row has changed.
  lemma {:induction false} SameVersionSameRow(steps: seq<Step>, n: nat, id: int)
    requires n <= |steps| && After(steps).Some? && After(steps[..n]).Some?
    requires id in After(steps[..n]).value.tables.users && id in After(steps).value.tables.users
    ensures var then_, now := After(steps[..n]).value.tables.users[id], After(steps).value.tables.users[id];
      && then_.version <= now.version
      && (then_.version == now.version ==> then_ == now)
    decreases |steps|
  {
    hide Next, Enabled;
    if n == |steps| {
      assert steps[..n] == steps;
    } else {
      var prefix := steps[..|steps| - 1];
      var before := After(prefix).value;
      InvHolds(prefix);
      NextAdvances(before, steps[|steps| - 1]);
      assert prefix[..n] == steps[..n];
      NextUserGrows(steps, n);
      InvHolds(steps[..n]);
      KnownIds(After(steps[..n]).value.tables);
      NextUserGrows(prefix, n);
      SameVersionSameRow(prefix, n, id);
    }
  }

  lemma {:induction false} NextUserGrows(steps: seq<Step>, n: nat)
    requires n <= |steps| && After(steps).Some? && After(steps[..n]).Some?
    ensures After(steps[..n]).value.tables.nextUser <= After(steps).value.tables.nextUser
    decreases |steps|
  {
    hide Next, Enabled;
    if n == |steps| {
      assert steps[..n] == steps;
    } else {
      var prefix := steps[..|steps| - 1];
      InvHolds(prefix);
      NextAdvances(After(prefix).value, steps[|steps| - 1]);
      assert prefix[..n] == steps[..n];
      NextUserGrows(prefix, n);
    }
  }

  // Every reachable store compiles and means what it says: each user has exactly one active
  // credential, and at any time the text rendered from the listed rows loads to exactly the policy of
  // the live rows.
  lemma ReachableStoreCompiles(steps: seq<Step>, now: int, rows: seq<EngineUser>, st: Settings, build: string)
    requires After(steps).Some? && Lists(After(steps).value.tables, now, rows)
    requires ValidSettings(st) && PlainSettings(st, build)
    ensures OneActiveEach(After(steps).value.tables)
    ensures Rendered(Built(rows, now), st, build).Ok?
    ensures Load(Rendered(Built(rows, now), st, build).value).Some?
    ensures LoadedPolicy(Load(Rendered(Built(rows, now), st, build).value).value) == RowPolicy(rows, now)
  {
    hide Rendered, Load, Built, RowPolicy, LoadedPolicy, Admits, ValidSettings, PlainSettings;
    InvHolds(steps);
    GoodStoreCompiles(After(steps).value.tables, now, rows, st, build);
    CompilationPreservesMeaning(rows, now, st, build);
  }
}
