// The user service and the deploy pipeline together: every interleaving of user operations, their
// notifications, the worker and direct deploys, from the committed row to the live configuration.
module ControlPlane {

  import opened Wrappers
  import opened Config
  import opened ConfigReader
  import opened Store
  import opened UsersState
  import opened UserTables
  import UserService
  import DeployProtocol

  // Versions of the store count committed mutations. owed maps a call that has committed and whose Trigger has
  // not returned to the version it made; told has the versions whose Trigger has returned, unheard those whose
  // row could not be read back, so that the hook never fires.
  datatype Sys = Sys(
    users: UserService.Sys, deploy: DeployProtocol.Sys, owed: map<nat, nat>, told: set<nat>, unheard: set<nat>)

  const INIT := Sys(UserService.START, DeployProtocol.INIT, map[], {}, {})

  // readBack: the statement after a commit that reads the row back works.
  datatype Step =
    | Serve(operation: UserService.Step, call: nat, readBack: bool)
    | Run(deploy: DeployProtocol.Step)

  // Only Update, the status changes and RotateCredentials read back.
  predicate Enabled(s: Sys, step: Step) {
    match step
    case Serve(operation, call, readBack) =>
      && UserService.Enabled(s.users, operation)
      && call !in s.owed && call !in s.deploy.sending
      && (readBack || operation.Commit?)
    case Run(deploy) => !deploy.Commit? && DeployProtocol.Enabled(s.deploy, deploy)
  }

  // A sweep that disables no one: its statement runs and the hook stays silent.
  predicate DisablesNoOne(t: Tables, operation: UserService.Step) {
    operation.Sweep? && forall id | id in t.users :: !PastExpiry(t.users[id], operation.now)
  }

  function Next(s: Sys, step: Step): Sys
    requires Enabled(s, step)
  {
    match step
    case Serve(operation, call, readBack) =>
      var users := UserService.Next(s.users, operation);
      var version := |users.log|;
      if version == |s.users.log| then s.(users := users) else
        var s' := s.(users := users, deploy := DeployProtocol.Next(s.deploy, DeployProtocol.Commit));
        if DisablesNoOne(s.users.tables, operation) then s'
        else if readBack then s'.(owed := s.owed[call := version])
        else s'.(unheard := s.unheard + {version})
    case Run(deploy) =>
      var s' := s.(deploy := DeployProtocol.Next(s.deploy, deploy));
      if deploy.Send? && deploy.call in s.owed
      then s'.(owed := s.owed - {deploy.call}, told := s.told + {s.owed[deploy.call]})
      else s'
  }

  function After(steps: seq<Step>): Option<Sys> {
    if steps == [] then Some(INIT) else
      var before := After(steps[..|steps| - 1]);
      var step := steps[|steps| - 1];
      if before.Some? && Enabled(before.value, step) then Some(Next(before.value, step)) else None
  }

  predicate Reaches(steps: seq<Step>, s: Sys) {
    After(steps) == Some(s)
  }

  // ---- the invariant ----

  // The tables at a version.
  function StoreAt(log: seq<UserService.Mutation>, version: nat): Tables
    requires version <= |log|
  {
    UserService.Serial(log[..version])
  }

  predicate ChangesNothing(log: seq<UserService.Mutation>, version: nat)
    requires 1 <= version <= |log|
  {
    StoreAt(log, version) == StoreAt(log, version - 1)
  }

  predicate AccountedFor(s: Sys, version: nat)
    requires 1 <= version <= |s.users.log|
  {
    version in s.told || version in s.owed.Values || version in s.unheard || ChangesNothing(s.users.log, version)
  }

  ghost predicate EveryVersionAccounted(s: Sys) {
    forall v: nat | 1 <= v <= |s.users.log| :: AccountedFor(s, v)
  }

  ghost predicate ToldInTime(s: Sys, sends: nat) {
    forall v | v in s.told :: 1 <= v <= sends
  }

  ghost predicate OwedInTime(s: Sys) {
    forall call | call in s.owed :: 1 <= s.owed[call] <= |s.users.log|
  }

  // The two projections of the run are runs of the two machines.
  ghost predicate Projects(s: Sys, us: seq<UserService.Step>, ds: seq<DeployProtocol.Step>) {
    && UserService.After(us) == Some(s.users)
    && DeployProtocol.Reaches(ds, s.deploy)
    && s.deploy.store == |s.users.log|
  }

  // The store when the last Trigger returned.
  function StoreAtLastSend(ds: seq<DeployProtocol.Step>): nat {
    DeployProtocol.LastSendBound(ds);
    DeployProtocol.StoreAfter(ds, DeployProtocol.LastSend(ds))
  }

  ghost predicate Inv(s: Sys, us: seq<UserService.Step>, ds: seq<DeployProtocol.Step>) {
    && Projects(s, us, ds)
    && ToldInTime(s, StoreAtLastSend(ds))
    && OwedInTime(s)
    && EveryVersionAccounted(s)
  }

  // An operation commits at most one mutation.
  lemma LogGrows(s: UserService.Sys, operation: UserService.Step)
    requires UserService.Enabled(s, operation)
    ensures var log' := UserService.Next(s, operation).log;
      log' == s.log || (|log'| == |s.log| + 1 && log'[..|s.log|] == s.log)
  {
    hide UserService.ValidNew, LimitsOf, UserService.Patchable, UserService.Settable, Created, Updated, StatusSet,
      Rotated, Swept, Deleted, NameTaken, AtVersion;
  }

  lemma NextUsers(us: seq<UserService.Step>, s: UserService.Sys, operation: UserService.Step)
    requires UserService.After(us) == Some(s) && UserService.Enabled(s, operation)
    ensures UserService.After(us + [operation]) == Some(UserService.Next(s, operation))
  {
    hide UserService.Next, UserService.Enabled;
    assert (us + [operation])[..|us|] == us;
  }

  lemma NextDeploy(ds: seq<DeployProtocol.Step>, s: DeployProtocol.Sys, step: DeployProtocol.Step)
    requires DeployProtocol.Reaches(ds, s) && DeployProtocol.Enabled(s, step)
    ensures DeployProtocol.Reaches(ds + [step], DeployProtocol.Next(s, step))
    ensures StoreAtLastSend(ds + [step]) == if step.Send? then s.store else StoreAtLastSend(ds)
  {
    hide DeployProtocol.Next, DeployProtocol.Enabled;
    var ds' := ds + [step];
    assert ds'[..|ds|] == ds;
    DeployProtocol.InvHolds(ds, s);
    DeployProtocol.LastSendBound(ds);
    DeployProtocol.StoreAfterPrefix(ds, ds', DeployProtocol.LastSend(ds));
    DeployProtocol.StoreAfterPrefix(ds, ds', |ds|);
  }

  lemma SweepOfNoOne(t: Tables, operation: UserService.Step)
    requires DisablesNoOne(t, operation)
    ensures Swept(t, operation.now) == t
  {
    var users' := Swept(t, operation.now).users;
    assert users'.Keys == t.users.Keys;
    forall id | id in t.users ensures users'[id] == t.users[id] {
      assert !PastExpiry(t.users[id], operation.now);
    }
    assert users' == t.users;
  }

  lemma StoreIsSerial(us: seq<UserService.Step>, s: UserService.Sys)
    requires UserService.After(us) == Some(s)
    ensures s.tables == StoreAt(s.log, |s.log|)
  {
    UserService.NoLostUpdates(us);
    assert s.log[..|s.log|] == s.log;
  }

  lemma OldVersionsStay(log: seq<UserService.Mutation>, log': seq<UserService.Mutation>, v: nat)
    requires log <= log' && v <= |log|
    ensures StoreAt(log, v) == StoreAt(log', v)
  {
    assert log[..v] == log'[..v];
  }

  lemma ServeKeepsVersions(s: Sys, us: seq<UserService.Step>, ds: seq<DeployProtocol.Step>, step: Step)
    requires Inv(s, us, ds) && step.Serve? && Enabled(s, step)
    ensures EveryVersionAccounted(Next(s, step)) && OwedInTime(Next(s, step))
  {
    hide DeployProtocol.Next, Projects, ToldInTime, StoreAt, Swept;
    var s' := Next(s, step);
    LogGrows(s.users, step.operation);
    forall v: nat | 1 <= v <= |s'.users.log| ensures AccountedFor(s', v) {
      if v <= |s.users.log| {
        assert AccountedFor(s, v);
        OldVersionsStay(s.users.log, s'.users.log, v);
        OldVersionsStay(s.users.log, s'.users.log, v - 1);
        if v in s.owed.Values {
          var call :| call in s.owed && s.owed[call] == v;
          assert call in s'.owed && s'.owed[call] == v;
        }
      } else if DisablesNoOne(s.users.tables, step.operation) {
        SweepChangesNothing(s, us, ds, step);
      } else if step.readBack {
        assert step.call in s'.owed && s'.owed[step.call] == v;
      }
    }
  }

  lemma SweepChangesNothing(s: Sys, us: seq<UserService.Step>, ds: seq<DeployProtocol.Step>, step: Step)
    requires Inv(s, us, ds) && step.Serve? && Enabled(s, step) && DisablesNoOne(s.users.tables, step.operation)
    ensures ChangesNothing(Next(s, step).users.log, |s.users.log| + 1)
  {
    hide DeployProtocol.Next, EveryVersionAccounted, ToldInTime, OwedInTime;
    var s' := Next(s, step);
    SweepOfNoOne(s.users.tables, step.operation);
    StoreIsSerial(us, s.users);
    NextUsers(us, s.users, step.operation);
    StoreIsSerial(us + [step.operation], s'.users);
    OldVersionsStay(s.users.log, s'.users.log, |s.users.log|);
  }

  lemma RunKeepsVersions(s: Sys, us: seq<UserService.Step>, ds: seq<DeployProtocol.Step>, step: Step)
    requires Inv(s, us, ds) && step.Run? && Enabled(s, step)
    ensures EveryVersionAccounted(Next(s, step)) && OwedInTime(Next(s, step))
  {
    hide DeployProtocol.Next, Projects, ToldInTime, ChangesNothing;
    var s' := Next(s, step);
    forall v: nat | 1 <= v <= |s'.users.log| ensures AccountedFor(s', v) {
      assert AccountedFor(s, v);
      if v in s.owed.Values && v !in s'.told {
        var call :| call in s.owed && s.owed[call] == v;
        assert call in s'.owed && s'.owed[call] == v;
      }
    }
  }

  lemma ServeKeepsInv(s: Sys, us: seq<UserService.Step>, ds: seq<DeployProtocol.Step>, step: Step)
    returns (us': seq<UserService.Step>, ds': seq<DeployProtocol.Step>)
    requires Inv(s, us, ds) && Enabled(s, step) && step.Serve?
    ensures Inv(Next(s, step), us', ds')
  {
    hide DeployProtocol.Next, DeployProtocol.Reaches, UserService.Next, UserService.After, UserService.Enabled,
      EveryVersionAccounted, OwedInTime, StoreAtLastSend, DisablesNoOne;
    ServeKeepsVersions(s, us, ds, step);
    NextUsers(us, s.users, step.operation);
    us', ds' := us + [step.operation], ds;
    LogGrows(s.users, step.operation);
    if |Next(s, step).users.log| != |s.users.log| {
      NextDeploy(ds, s.deploy, DeployProtocol.Commit);
      ds' := ds + [DeployProtocol.Commit];
      CommitCounts(s.deploy);
    }
  }

  lemma RunKeepsInv(s: Sys, us: seq<UserService.Step>, ds: seq<DeployProtocol.Step>, step: Step)
    requires Inv(s, us, ds) && Enabled(s, step) && step.Run?
    ensures Inv(Next(s, step), us, ds + [step.deploy])
  {
    hide DeployProtocol.Next, DeployProtocol.Reaches, DeployProtocol.Enabled, UserService.After, EveryVersionAccounted,
      StoreAtLastSend;
    RunKeepsVersions(s, us, ds, step);
    NextDeploy(ds, s.deploy, step.deploy);
    SendsAreLate(ds, s.deploy);
    OthersDoNotCount(s.deploy, step.deploy);
  }

  // Every step of the service and of the pipeline keeps the accounting of versions.
  lemma StepKeepsInv(s: Sys, us: seq<UserService.Step>, ds: seq<DeployProtocol.Step>, step: Step)
    returns (us': seq<UserService.Step>, ds': seq<DeployProtocol.Step>)
    requires Inv(s, us, ds) && Enabled(s, step)
    ensures Inv(Next(s, step), us', ds')
  {
    hide Enabled, Next, Inv;
    if step.Serve? {
      us', ds' := ServeKeepsInv(s, us, ds, step);
    } else {
      us', ds' := us, ds + [step.deploy];
      RunKeepsInv(s, us, ds, step);
    }
  }

  lemma CommitCounts(s: DeployProtocol.Sys)
    ensures DeployProtocol.Next(s, DeployProtocol.Commit).store == s.store + 1
  {
  }

  lemma OthersDoNotCount(s: DeployProtocol.Sys, step: DeployProtocol.Step)
    requires DeployProtocol.Enabled(s, step) && !step.Commit?
    ensures DeployProtocol.Next(s, step).store == s.store
  {
  }

  lemma SendsAreLate(ds: seq<DeployProtocol.Step>, s: DeployProtocol.Sys)
    requires DeployProtocol.Reaches(ds, s)
    ensures StoreAtLastSend(ds) <= s.store
  {
    DeployProtocol.InvHolds(ds, s);
    DeployProtocol.LastSendBound(ds);
    DeployProtocol.StoreGrows(ds, DeployProtocol.LastSend(ds), |ds|);
  }

  lemma {:induction false} InvHolds(steps: seq<Step>, s: Sys)
    returns (us: seq<UserService.Step>, ds: seq<DeployProtocol.Step>)
    requires Reaches(steps, s)
    ensures Inv(s, us, ds)
    decreases |steps|
  {
    hide Enabled, Next, Inv;
    if steps == [] {
      us, ds := [], [];
      InitInv();
    } else {
      var before := After(steps[..|steps| - 1]).value;
      us, ds := InvHolds(steps[..|steps| - 1], before);
      us, ds := StepKeepsInv(before, us, ds, steps[|steps| - 1]);
    }
  }

  lemma InitInv()
    ensures Inv(INIT, [], [])
  {
  }

  // ---- main results ----

  // The wake slot is empty, the worker is idle and its latest deploy left its text live.
  predicate AtRest(s: Sys) {
    !s.deploy.slot.wake && DeployProtocol.PhaseOf(s.deploy, 0).Idle? && s.deploy.delivered.Some?
  }

  lemma DiskIsAVersion(steps: seq<Step>, s: Sys)
    requires Reaches(steps, s)
    ensures s.deploy.disk.Some? ==> s.deploy.disk.value <= |s.users.log|
    ensures s.deploy.delivered.Some? ==> s.deploy.disk.Some?
  {
    hide Reaches, EveryVersionAccounted;
    var us, ds := InvHolds(steps, s);
    DeployProtocol.InvHolds(ds, s.deploy);
  }

  // A notified commit reaches the disk: at rest, every version whose Trigger returned is behind the one whose
  // text is live, and stays behind it whatever becomes of a direct deploy in progress.
  lemma NotifiedCommitsAreLive(steps: seq<Step>, s: Sys, version: nat)
    requires Reaches(steps, s) && AtRest(s) && version in s.told
    ensures s.deploy.disk.Some? && version <= s.deploy.disk.value <= |s.users.log|
    ensures DeployProtocol.NotAfter(Some(version), DeployProtocol.Settled(s.deploy))
  {
    hide Reaches, EveryVersionAccounted, DeployProtocol.Settled, DeployProtocol.PhaseOf;
    var us, ds := InvHolds(steps, s);
    DiskIsAVersion(steps, s);
    DeployProtocol.LastSendBound(ds);
    LastSendSends(ds);
    DeployProtocol.QuiescentDiskIsFresh(ds, s.deploy, DeployProtocol.LastSend(ds) - 1);
  }

  lemma {:induction false} LastSendSends(ds: seq<DeployProtocol.Step>)
    requires DeployProtocol.LastSend(ds) > 0
    ensures DeployProtocol.LastSend(ds) <= |ds| && ds[DeployProtocol.LastSend(ds) - 1].Send?
    decreases |ds|
  {
    if !ds[|ds| - 1].Send? {
      LastSendSends(ds[..|ds| - 1]);
    }
  }

  // What a configuration at rest can be missing: only commits whose Trigger has not returned, or whose row could
  // not be read back. All others up to the newest version are in it, or changed nothing.
  lemma MissingCommits(steps: seq<Step>, s: Sys, version: nat)
    requires Reaches(steps, s) && AtRest(s)
    requires s.deploy.disk.Some? && s.deploy.disk.value < version <= |s.users.log|
    ensures version in s.owed.Values || version in s.unheard || ChangesNothing(s.users.log, version)
  {
    hide Reaches, AtRest, ChangesNothing;
    var us, ds := InvHolds(steps, s);
    assert AccountedFor(s, version);
    if version in s.told {
      NotifiedCommitsAreLive(steps, s, version);
    }
  }

  lemma {:induction false} NothingChanged(log: seq<UserService.Mutation>, lo: nat, hi: nat)
    requires lo <= hi <= |log|
    requires forall v: nat | lo < v <= hi :: ChangesNothing(log, v)
    ensures StoreAt(log, lo) == StoreAt(log, hi)
    decreases hi
  {
    hide StoreAt;
    if lo < hi {
      assert ChangesNothing(log, hi);
      NothingChanged(log, lo, hi - 1);
    }
  }

  lemma {:induction false} LogPrefixReached(us: seq<UserService.Step>, s: UserService.Sys, version: nat)
    returns (n: nat)
    requires UserService.After(us) == Some(s) && version <= |s.log|
    ensures n <= |us| && UserService.After(us[..n]).Some? && UserService.After(us[..n]).value.log == s.log[..version]
    decreases |us|
  {
    hide UserService.Next, UserService.Enabled;
    if version == |s.log| {
      n := |us|;
      assert us[..n] == us && s.log[..version] == s.log;
    } else {
      var prefix := us[..|us| - 1];
      var before := UserService.After(prefix).value;
      LogGrows(before, us[|us| - 1]);
      n := LogPrefixReached(prefix, before, version);
      assert prefix[..n] == us[..n];
      assert before.log[..version] == s.log[..version];
    }
  }

  // At every moment of every run, deploys in progress included, the configuration written last means a store
  // the service was in: its text loads to exactly the policy of the rows listed from the tables of that version.
  lemma LiveConfigurationMeansAStore(
      steps: seq<Step>, s: Sys, now: int, rows: seq<EngineUser>, st: Settings, build: string)
    requires Reaches(steps, s) && s.deploy.disk.Some? && ValidSettings(st) && PlainSettings(st, build)
    ensures s.deploy.disk.value <= |s.users.log|
    ensures OneActiveEach(StoreAt(s.users.log, s.deploy.disk.value))
    ensures Lists(StoreAt(s.users.log, s.deploy.disk.value), now, rows) ==> LoadsToItsRows(rows, now, st, build)
  {
    hide Reaches, Lists, OneActiveEach, ValidSettings, PlainSettings, EveryVersionAccounted, LoadsToItsRows;
    DiskIsAVersion(steps, s);
    var us, ds := InvHolds(steps, s);
    var n := LogPrefixReached(us, s.users, s.deploy.disk.value);
    UserService.NoLostUpdates(us[..n]);
    StoreCompiles(us[..n], now, rows, st, build);
  }

  ghost predicate LoadsToItsRows(rows: seq<EngineUser>, now: int, st: Settings, build: string) {
    && Rendered(Built(rows, now), st, build).Ok?
    && Load(Rendered(Built(rows, now), st, build).value).Some?
    && LoadedPolicy(Load(Rendered(Built(rows, now), st, build).value).value) == RowPolicy(rows, now)
  }

  lemma StoreCompiles(us: seq<UserService.Step>, now: int, rows: seq<EngineUser>, st: Settings, build: string)
    requires UserService.After(us).Some? && ValidSettings(st) && PlainSettings(st, build)
    ensures OneActiveEach(UserService.After(us).value.tables)
    ensures Lists(UserService.After(us).value.tables, now, rows) ==> LoadsToItsRows(rows, now, st, build)
  {
    hide UserService.After, Lists, OneActiveEach, ValidSettings, PlainSettings, Rendered, Load, Built, LoadedPolicy, RowPolicy;
    UserService.InvHolds(us);
    if Lists(UserService.After(us).value.tables, now, rows) {
      UserService.ReachableStoreCompiles(us, now, rows, st, build);
    }
  }

  // The live configuration is current: at rest, when every commit was read back and its Trigger has returned,
  // the configuration on disk was derived from tables equal to those of now, and its text loads to exactly the
  // policy of their live rows.
  lemma LiveConfigurationIsCurrent(
      steps: seq<Step>, s: Sys, now: int, rows: seq<EngineUser>, st: Settings, build: string)
    requires Reaches(steps, s) && AtRest(s) && s.owed == map[] && s.unheard == {}
    requires ValidSettings(st) && PlainSettings(st, build)
    ensures s.deploy.disk.Some? && s.deploy.disk.value <= |s.users.log|
    ensures StoreAt(s.users.log, s.deploy.disk.value) == s.users.tables
    ensures Lists(s.users.tables, now, rows) ==> LoadsToItsRows(rows, now, st, build)
  {
    hide Reaches, Lists, ValidSettings, PlainSettings, EveryVersionAccounted, LoadsToItsRows, OneActiveEach,
      ChangesNothing, StoreAt;
    DiskIsAVersion(steps, s);
    var us, ds := InvHolds(steps, s);
    var log, disk := s.users.log, s.deploy.disk.value;
    forall v: nat | disk < v <= |log| ensures ChangesNothing(log, v) {
      MissingCommits(steps, s, v);
    }
    NothingChanged(log, disk, |log|);
    StoreIsSerial(us, s.users);
    LiveConfigurationMeansAStore(steps, s, now, rows, st, build);
  }
  // Without the read-back it need not be: a commit that cannot be read back changes the tables and leaves the
  // system at rest with the configuration as it was.
  lemma UnheardCommitIsMissing(steps: seq<Step>, s: Sys, operation: UserService.Step, call: nat)
    requires Reaches(steps, s) && AtRest(s) && Enabled(s, Serve(operation, call, false))
    requires UserService.Next(s.users, operation).log != s.users.log
    ensures var s' := Next(s, Serve(operation, call, false));
      && AtRest(s') && s'.owed == s.owed && s'.unheard == s.unheard + {|s'.users.log|}
      && s'.users.tables != s.users.tables
      && s'.deploy.disk == s.deploy.disk && s'.deploy.disk.Some? && s'.deploy.disk.value < |s'.users.log|
  {
    hide Reaches, UserService.Next;
    DiskIsAVersion(steps, s);
    LogGrows(s.users, operation);
    CommitChangesTables(s.users, operation);
  }

  lemma CommitChangesTables(s: UserService.Sys, operation: UserService.Step)
    requires UserService.Enabled(s, operation) && operation.Commit? && UserService.Next(s, operation).log != s.log
    ensures UserService.Next(s, operation).tables != s.tables
  {
    hide LimitsOf, Revoked;
    var t' := UserService.Next(s, operation).tables;
    var id := s.ops[operation.op].id;
    assert t'.users[id].version == s.tables.users[id].version + 1;
  }
}
