// internal/deploy/pipeline.go: the coalescing trigger slot, and one deployment from source read to
// recorded row.
module Pipeline {

  import opened Wrappers
  import opened Text
  import opened Engine
  import opened Config
  import opened Deploy

  // ---- the trigger slot ----

  // The fields Trigger and the worker share: the first reason of the batch and the one-place channel.
  datatype Slot = Slot(actor: string, reason: string, wake: bool)

  function SetReason(s: Slot, actor: string, reason: string): Slot {
    if s.reason == "" then s.(actor := actor, reason := reason) else s
  }

  function TrySend(s: Slot): Slot {
    s.(wake := true)
  }

  function Receive(s: Slot): Slot {
    s.(wake := false)
  }

  function TakenReason(s: Slot): (string, string) {
    if s.reason == "" then ("system", "state-change") else (s.actor, s.reason)
  }

  function TakeReason(s: Slot): Slot {
    s.(actor := "", reason := "")
  }

  // ---- one recorded generation ----

  datatype Row = Row(generatedAt: int, generatedBy: string, reason: string,
                     validation: string, deployment: string, checksum: string)

  function Status(result: DeployResult, error: Option<DeployError>): string {
    if error.Some? then (if result.rolledBack then "rolled_back" else "failed")
    else if result.changed then "deployed" else "unchanged"
  }

  // What DeployNow is given: the state the source derived (None when it failed), who asked and why,
  // how the outside world behaves, and whether inserting the history row succeeds.
  datatype Request = Request(
    source: Option<State>, world: World, now: int, actor: string, reason: string, rowSaved: bool)

  datatype Host = Host(settings: Settings, build: string, sha256: string -> string)

  // The outcome of the deploy behind one request, including the checks before it.
  function Attempt(h: Host, before: Option<string>, r: Request): Outcome {
    if r.source.None? || !ValidState(r.source.value) then Outcome(NOTHING, Some(ReadFailed), before) else
      match Rendered(r.source.value, h.settings, h.build)
      case Err(cause) => Outcome(NOTHING, Some(RenderFailed(cause)), before)
      case Ok(text) => Deployed(before, text, h.sha256(text), r.world)
  }

  function Validation(r: Request): string {
    if r.source.None? then "error" else if !ValidState(r.source.value) then "invalid" else "valid"
  }

  function RowOf(h: Host, before: Option<string>, r: Request): Row {
    var out := Attempt(h, before, r);
    Row(r.now, r.actor, r.reason, Validation(r), Status(out.result, out.error), out.result.checksum)
  }

  // A row whose insert fails is logged and lost.
  function Recorded(h: Host, before: Option<string>, r: Request): seq<Row> {
    if r.rowSaved then [RowOf(h, before, r)] else []
  }

  // A crash during this request leaves the disk crash-safe for the text it was installing.
  predicate SafeFor(h: Host, before: Option<string>, r: Request, d: Disk) {
    && r.source.Some? && Rendered(r.source.value, h.settings, h.build).Ok?
    && CrashSafe(d, before, Rendered(r.source.value, h.settings, h.build).value)
  }

  class Service {
    const deployer: Deployer
    var nextActor: string
    var nextReason: string
    var wake: bool
    var history: seq<Row>

    constructor (deployer: Deployer)
      ensures this.deployer == deployer
      ensures SlotView() == Slot("", "", false) && history == []
    {
      this.deployer := deployer;
      nextActor, nextReason, wake, history := "", "", false, [];
    }

    function SlotView(): Slot
      reads this
    {
      Slot(nextActor, nextReason, wake)
    }

    function HostView(): Host
      reads this
    {
      Host(deployer.settings, deployer.build, deployer.sha256)
    }

    // Trigger: record the reason under its lock, then a send that never blocks.
    method Trigger(actor: string, reason: string)
      modifies this`nextActor, this`nextReason, this`wake
      ensures SlotView() == TrySend(SetReason(old(SlotView()), actor, reason))
    {
      if nextReason == "" {
        nextActor, nextReason := actor, reason;
      }
      if !wake {
        wake := true;
      }
    }

    // The worker after a receive: take the reason and clear it.
    method TakeTrigger() returns (actor: string, reason: string)
      requires wake
      modifies this`nextActor, this`nextReason, this`wake
      ensures SlotView() == TakeReason(Receive(old(SlotView())))
      ensures (actor, reason) == TakenReason(old(SlotView()))
    {
      wake := false;
      actor, reason := nextActor, nextReason;
      nextActor, nextReason := "", "";
      if reason == "" {
        actor, reason := "system", "state-change";
      }
    }

    // DeployNow under the deploy lock: derive, validate, deploy, record exactly one row.
    method DeployNow(r: Request) returns (result: DeployResult, failed: bool)
      modifies this`history, deployer
      ensures history == old(history) + Recorded(HostView(), old(deployer.disk).config, r)
      ensures deployer.disk.config == Attempt(HostView(), old(deployer.disk).config, r).config
      ensures result == Attempt(HostView(), old(deployer.disk).config, r).result
      ensures failed <==> Attempt(HostView(), old(deployer.disk).config, r).error.Some?
      ensures old(deployer.crashes) <= deployer.crashes
      ensures forall k | |old(deployer.crashes)| <= k < |deployer.crashes| ::
                SafeFor(HostView(), old(deployer.disk).config, r, deployer.crashes[k])
    {
      hide Rendered, Deployed, CrashSafe, SignalDiscipline;
      if r.source.None? {
        RecordRow(Row(r.now, r.actor, r.reason, "error", "failed", ""), r.rowSaved);
        return NOTHING, true;
      }
      var errs := Validate(r.source.value);
      if errs != 0 {
        RecordRow(Row(r.now, r.actor, r.reason, "invalid", "failed", ""), r.rowSaved);
        return NOTHING, true;
      }
      var error;
      ghost var log;
      result, error, log := deployer.Deploy(r.source.value, r.world);
      var status := "deployed";
      if error.Some? && result.rolledBack {
        status := "rolled_back";
      } else if error.Some? {
        status := "failed";
      } else if !result.changed {
        status := "unchanged";
      }
      RecordRow(Row(r.now, r.actor, r.reason, "valid", status, result.checksum), r.rowSaved);
      failed := error.Some?;
    }

    // recordRow appends the row; a failed insert does not fail the deploy.
    method RecordRow(row: Row, saved: bool)
      modifies this`history
      ensures history == old(history) + if saved then [row] else []
    {
      if saved {
        history := history + [row];
      }
    }
  }

  // ---- what the history says about the live config ----

  // Runs of DeployNow under the lock, oldest request first.
  function ConfigAfter(h: Host, before: Option<string>, rs: seq<Request>): Option<string> {
    if rs == [] then before else
      Attempt(h, ConfigAfter(h, before, rs[..|rs| - 1]), rs[|rs| - 1]).config
  }

  function Rows(h: Host, before: Option<string>, rs: seq<Request>): seq<Row> {
    if rs == [] then [] else
      Rows(h, before, rs[..|rs| - 1]) + Recorded(h, ConfigAfter(h, before, rs[..|rs| - 1]), rs[|rs| - 1])
  }

  // A row whose text became (or already was) the live config: deployed, unchanged, or failed after
  // the install, which is the only failure that records a checksum.
  predicate Stuck(row: Row) {
    row.deployment in {"deployed", "unchanged"} || (row.deployment == "failed" && row.checksum != "")
  }

  // The checksum of the newest row that stuck.
  function NewestStuck(rows: seq<Row>): Option<string> {
    if rows == [] then None
    else if Stuck(rows[|rows| - 1]) then Some(rows[|rows| - 1].checksum)
    else NewestStuck(rows[..|rows| - 1])
  }

  // ---- which requests leave their text live, from what the caller knows before the call ----

  // The request has a text to deploy.
  predicate Renders(h: Host, r: Request) {
    r.source.Some? && ValidState(r.source.value) && Rendered(r.source.value, h.settings, h.build).Ok?
  }

  function TextOf(h: Host, r: Request): string
    requires Renders(h, r)
  {
    Rendered(r.source.value, h.settings, h.build).value
  }

  // The text differs from the live config and the install goes through.
  predicate Installs(h: Host, before: Option<string>, r: Request) {
    && Renders(h, r) && before != Some(TextOf(h, r))
    && (before.Some? ==> r.world.readable) && InstallFailure(before, r.world).None?
  }

  predicate SignalWillFail(h: Host, before: Option<string>, r: Request) {
    Installs(h, before, r) && EngineRunning(r.world) && !r.world.signalOk
  }

  predicate WillRollBack(h: Host, before: Option<string>, r: Request) {
    Installs(h, before, r) && EngineRunning(r.world) && r.world.signalOk && !Healthy(r.world.polls)
  }

  predicate RestoreWillFail(h: Host, before: Option<string>, r: Request) {
    WillRollBack(h, before, r) && !(if before.Some? then r.world.restore == NoFault else r.world.removeOk)
  }

  // The text is live already and the config can be read.
  predicate IsLive(h: Host, before: Option<string>, r: Request) {
    Renders(h, r) && before == Some(TextOf(h, r)) && r.world.readable
  }

  // The request ends with its text live.
  predicate Lands(h: Host, before: Option<string>, r: Request) {
    IsLive(h, before, r)
    || (Installs(h, before, r) && (WillRollBack(h, before, r) ==> RestoreWillFail(h, before, r)))
  }

  // Of those, the ones whose row says so.
  predicate Shows(h: Host, before: Option<string>, r: Request) {
    r.rowSaved && Lands(h, before, r) && !RestoreWillFail(h, before, r)
  }

  // What one request does to the live config and to the history.
  lemma OneAttempt(h: Host, before: Option<string>, r: Request)
    ensures Attempt(h, before, r).config == if Lands(h, before, r) then Some(TextOf(h, r)) else before
    ensures (forall text :: h.sha256(text) != "") ==>
              (Stuck(RowOf(h, before, r)) <==> Lands(h, before, r) && !RestoreWillFail(h, before, r))
    ensures Shows(h, before, r) ==> RowOf(h, before, r).checksum == h.sha256(TextOf(h, r))
  {
    hide Rendered, EngineRunning, Healthy, ValidState;
  }

  // What the row and the result say, exactly: "unchanged" for a text that is live already, "deployed" for one that
  // was installed and either found no engine to tell or was taken up healthily, "rolled_back" for one that was
  // not, "failed" for everything else; the checksum is that of the text whenever it was live or got installed.
  lemma StatusExactlyWhen(h: Host, before: Option<string>, r: Request)
    ensures var status := RowOf(h, before, r).deployment;
      && (status == "unchanged" <==> IsLive(h, before, r))
      && (status == "deployed" <==>
            Installs(h, before, r) && (EngineRunning(r.world) ==> r.world.signalOk && Healthy(r.world.polls)))
      && (status == "rolled_back" <==> WillRollBack(h, before, r))
      && status in {"unchanged", "deployed", "rolled_back", "failed"}
    ensures var result := Attempt(h, before, r).result;
      && (result.changed <==> Installs(h, before, r))
      && (result.reloaded <==>
            Installs(h, before, r) && EngineRunning(r.world) && r.world.signalOk && Healthy(r.world.polls))
      && (result.rolledBack <==> WillRollBack(h, before, r))
      && RowOf(h, before, r).checksum == result.checksum
      && (if IsLive(h, before, r) || Installs(h, before, r) then Renders(h, r) && result.checksum == h.sha256(TextOf(h, r))
          else result.checksum == "")
    ensures var row := RowOf(h, before, r);
      && row.generatedAt == r.now && row.generatedBy == r.actor && row.reason == r.reason
      && (row.validation == "valid" <==> r.source.Some? && ValidState(r.source.value))
      && (row.validation == "error" <==> r.source.None?)
  {
    hide Rendered, EngineRunning, Healthy, ValidState;
    StatusesDiffer();
  }

  lemma StatusesDiffer()
    ensures "unchanged" != "deployed" && "rolled_back" != "failed" && "unchanged" != "failed"
    ensures "unchanged" != "rolled_back" && "deployed" != "rolled_back" && "deployed" != "failed"
    ensures "valid" != "error" && "valid" != "invalid" && "error" != "invalid"
  {
    assert |"unchanged"| == 9 && |"deployed"| == 8 && |"rolled_back"| == 11 && |"failed"| == 6;
    assert |"valid"| == 5 && "error"[0] == 'e' && "valid"[0] == 'v' && "invalid"[0] == 'i';
  }

  // "failed" is documented as leaving the live config untouched. It does not do so exactly when the
  // install went through and the running engine could not be signalled.
  lemma FailedKeepsConfigExactlyWhen(h: Host, before: Option<string>, r: Request)
    ensures RowOf(h, before, r).deployment == "failed" && Attempt(h, before, r).config != before
            <==> SignalWillFail(h, before, r)
  {
    hide Rendered, EngineRunning, Healthy, ValidState;
  }

  // "rolled_back" is documented as restoring the previous config. It does not do so exactly when the
  // write, or the removal, that would restore it fails.
  lemma RolledBackRestoresExactlyWhen(h: Host, before: Option<string>, r: Request)
    ensures RowOf(h, before, r).deployment == "rolled_back" && Attempt(h, before, r).config != before
            <==> RestoreWillFail(h, before, r)
  {
    hide Rendered, EngineRunning, Healthy, ValidState;
  }

  // ---- whole runs ----

  // The newest request that landed, and the newest whose row shows it.
  function NewestLanding(h: Host, before: Option<string>, rs: seq<Request>): Option<Request> {
    if rs == [] then None
    else if Lands(h, ConfigAfter(h, before, rs[..|rs| - 1]), rs[|rs| - 1]) then Some(rs[|rs| - 1])
    else NewestLanding(h, before, rs[..|rs| - 1])
  }

  function NewestShown(h: Host, before: Option<string>, rs: seq<Request>): Option<Request> {
    if rs == [] then None
    else if Shows(h, ConfigAfter(h, before, rs[..|rs| - 1]), rs[|rs| - 1]) then Some(rs[|rs| - 1])
    else NewestShown(h, before, rs[..|rs| - 1])
  }

  // After any run the live config is the text of the newest request that landed.
  lemma {:induction false} NewestLandingIsLive(h: Host, before: Option<string>, rs: seq<Request>)
    ensures var k := NewestLanding(h, before, rs);
      && (k.Some? ==> Renders(h, k.value))
      && ConfigAfter(h, before, rs) == if k.Some? then Some(TextOf(h, k.value)) else before
    decreases |rs|
  {
    hide Attempt, RowOf, Lands, Shows, Renders, Rendered;
    if rs != [] {
      var prefix, last := rs[..|rs| - 1], rs[|rs| - 1];
      NewestLandingIsLive(h, before, prefix);
      OneAttempt(h, ConfigAfter(h, before, prefix), last);
      LandingRenders(h, ConfigAfter(h, before, prefix), last);
    }
  }

  lemma LandingRenders(h: Host, before: Option<string>, r: Request)
    ensures Lands(h, before, r) ==> Renders(h, r)
  {
    hide Rendered;
  }

  // The checksum the history names is that of the newest request shown.
  lemma {:induction false} HistoryNamesNewestShown(h: Host, before: Option<string>, rs: seq<Request>)
    requires forall text :: h.sha256(text) != ""
    ensures var k := NewestShown(h, before, rs);
      && (k.Some? ==> Renders(h, k.value))
      && NewestStuck(Rows(h, before, rs)) == if k.Some? then Some(h.sha256(TextOf(h, k.value))) else None
    decreases |rs|
  {
    hide Attempt, RowOf, Lands, Renders, Rendered, Stuck, RestoreWillFail;
    if rs != [] {
      var prefix, last := rs[..|rs| - 1], rs[|rs| - 1];
      HistoryNamesNewestShown(h, before, prefix);
      var live := ConfigAfter(h, before, prefix);
      OneAttempt(h, live, last);
      if last.rowSaved {
        var rows := Rows(h, before, rs);
        assert rows == Rows(h, before, prefix) + [RowOf(h, live, last)];
        assert rows[..|rows| - 1] == Rows(h, before, prefix);
        LandingRenders(h, live, last);
      } else {
        assert Rows(h, before, rs) == Rows(h, before, prefix) + [] == Rows(h, before, prefix);
      }
    }
  }

  // The newest row that stuck, as documented, names the live config.
  predicate HistoryIsRight(h: Host, before: Option<string>, rs: seq<Request>) {
    var live := ConfigAfter(h, before, rs);
    match NewestStuck(Rows(h, before, rs))
    case None => live == before
    case Some(sum) => live.Some? && h.sha256(live.value) == sum
  }

  // The recorded history names the live config exactly when the newest request that landed and the newest
  // one shown have the same checksum: restores that failed and rows that were lost are the only ways to
  // get it wrong, and a later request that lands and is shown puts it right.
  lemma HistoryNamesLiveConfig(h: Host, before: Option<string>, rs: seq<Request>)
    requires forall text :: h.sha256(text) != ""
    ensures var landed, shown := NewestLanding(h, before, rs), NewestShown(h, before, rs);
      && (landed.Some? ==> Renders(h, landed.value)) && (shown.Some? ==> Renders(h, shown.value))
      && (HistoryIsRight(h, before, rs) <==>
            match shown
            case None => landed.None? || Some(TextOf(h, landed.value)) == before
            case Some(r) => landed.Some? && h.sha256(TextOf(h, landed.value)) == h.sha256(TextOf(h, r)))
  {
    hide Attempt, Rows, ConfigAfter, NewestLanding, NewestShown, NewestStuck, Renders, Rendered;
    NewestLandingIsLive(h, before, rs);
    HistoryNamesNewestShown(h, before, rs);
    if NewestShown(h, before, rs).Some? {
      ShownHaveLanded(h, before, rs);
    }
  }

  lemma {:induction false} ShownHaveLanded(h: Host, before: Option<string>, rs: seq<Request>)
    ensures NewestShown(h, before, rs).Some? ==> NewestLanding(h, before, rs).Some?
    decreases |rs|
  {
    hide Attempt, Lands, RestoreWillFail;
    if rs != [] {
      ShownHaveLanded(h, before, rs[..|rs| - 1]);
    }
  }

  // In particular it does when every rollback restored and every row was saved.
  lemma SavedHistoryIsRight(h: Host, before: Option<string>, rs: seq<Request>)
    requires forall text :: h.sha256(text) != ""
    requires forall k | 0 <= k < |rs| :: rs[k].rowSaved && !RestoreWillFail(h, ConfigAfter(h, before, rs[..k]), rs[k])
    ensures HistoryIsRight(h, before, rs)
  {
    hide RestoreWillFail, HistoryIsRight, Renders, Rendered;
    EveryLandingShown(h, before, rs);
    HistoryNamesLiveConfig(h, before, rs);
  }

  lemma {:induction false} EveryLandingShown(h: Host, before: Option<string>, rs: seq<Request>)
    requires forall k | 0 <= k < |rs| :: rs[k].rowSaved && !RestoreWillFail(h, ConfigAfter(h, before, rs[..k]), rs[k])
    ensures NewestShown(h, before, rs) == NewestLanding(h, before, rs)
    decreases |rs|
  {
    hide Attempt, Lands, RestoreWillFail;
    if rs != [] {
      var prefix := rs[..|rs| - 1];
      forall k | 0 <= k < |prefix|
        ensures prefix[k].rowSaved && !RestoreWillFail(h, ConfigAfter(h, before, prefix[..k]), prefix[k])
      {
        assert prefix[..k] == rs[..k] && prefix[k] == rs[k];
      }
      EveryLandingShown(h, before, prefix);
      assert rs[..|rs| - 1] == prefix;
    }
  }

  // An engine that runs as process 7 but cannot be signalled.
  const UNSIGNALLED := World(true, true, NoFault, NoFault, NoFault, true, Some("7"), true, true, false, [Poll(false, true)])

  // The failing input: the row says "failed" while the new text is live, and deploying the same state
  // again reports "unchanged" and signals nobody.
  lemma FailedSignalThenUnchanged(h: Host)
    requires ValidSettings(h.settings)
    ensures var r := Request(Some(State([])), UNSIGNALLED, 0, "system", "state-change", true);
      var first := Attempt(h, None, r);
      && RowOf(h, None, r).deployment == "failed"
      && first.config.Some?
      && RowOf(h, first.config, r).deployment == "unchanged"
      && !Attempt(h, first.config, r).result.reloaded
  {
    hide ConfigLines, ValidSettings;
    assert TrimSpace("7") == "7" && ParseNat("7"[..0]) == 0;
    assert EngineRunning(UNSIGNALLED);
  }

  // An engine that dies after the reload, with a first config that cannot be removed.
  const UNRESTORED := World(true, true, NoFault, NoFault, NoFault, false, Some("7"), true, true, true, [Poll(false, false)])

  // The failing input: the row says "rolled_back" while the text that killed the engine is live.
  lemma FailedRestoreRecordedAsRolledBack(h: Host)
    requires ValidSettings(h.settings)
    ensures var r := Request(Some(State([])), UNRESTORED, 0, "system", "state-change", true);
      && RowOf(h, None, r).deployment == "rolled_back"
      && Attempt(h, None, r).config.Some?
  {
    hide ConfigLines, ValidSettings;
    assert TrimSpace("7") == "7" && ParseNat("7"[..0]) == 0;
    assert EngineRunning(UNRESTORED);
    assert !UNRESTORED.polls[0].alive && !Healthy(UNRESTORED.polls);
  }
}
