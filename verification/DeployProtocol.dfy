// The deploy pipeline as a protocol: every interleaving of store commits, Trigger calls, the worker
// and direct DeployNow calls in one process, one atomic step at a time.
module DeployProtocol {

  import opened Wrappers
  import opened Engine
  import opened Config
  import opened Deploy
  import opened Pipeline

  // Where a thread is. Thread 0 is the worker of Start; the others are direct callers of DeployNow.
  datatype Phase =
    | Idle
    | Woken
    | Waiting(actor: string, reason: string)
    | Holding(actor: string, reason: string)
    | Read(actor: string, reason: string, version: Option<nat>)
    | Written(actor: string, reason: string, wrote: nat, previous: Option<nat>)
    | Finished

  // store counts committed mutations; disk is the store version of the state whose text is the live
  // config, None while that is the one found at the start; written lists the versions put there, in order;
  // delivered is the version the worker's latest deploy left there, if it left one.
  datatype Sys = Sys(
    store: nat, slot: Slot, sending: set<nat>, lock: Option<nat>, phase: map<nat, Phase>,
    disk: Option<nat>, written: seq<nat>, delivered: Option<nat>)

  const INIT := Sys(0, Slot("", "", false), {}, None, map[0 := Idle], None, [], None)

  datatype Step =
    | Commit
    | Set(call: nat, actor: string, reason: string)     // Trigger: the reason section
    | Send(call: nat)                                   // Trigger: the non-blocking send, then return
    | Receive                                           // worker: take the wake token
    | Take                                              // worker: take and clear the reason
    | Call(tid: nat, actor: string, reason: string)     // a direct DeployNow call arrives
    | Lock(tid: nat)
    | Source(tid: nat, ok: bool)                        // derive the state from the store
    | Write(tid: nat, ok: bool)                         // render it and make its text live, or not
    | Settle(tid: nat, undone: bool)                    // signal, verify, perhaps restore; record the row
    | Unlock(tid: nat)

  function PhaseOf(s: Sys, tid: nat): Phase {
    if tid in s.phase then s.phase[tid] else Idle
  }

  predicate Enabled(s: Sys, step: Step) {
    match step
    case Commit => true
    case Set(call, _, _) => call !in s.sending
    case Send(call) => call in s.sending
    case Receive => s.slot.wake && PhaseOf(s, 0).Idle?
    case Take => PhaseOf(s, 0).Woken?
    case Call(tid, _, _) => tid > 0 && PhaseOf(s, tid).Idle?
    case Lock(tid) => PhaseOf(s, tid).Waiting? && s.lock.None?
    case Source(tid, _) => PhaseOf(s, tid).Holding?
    case Write(tid, _) => PhaseOf(s, tid).Read?
    case Settle(tid, _) => PhaseOf(s, tid).Written?
    case Unlock(tid) => PhaseOf(s, tid).Finished?
  }

  function Next(s: Sys, step: Step): Sys
    requires Enabled(s, step)
  {
    match step
    case Commit => s.(store := s.store + 1)
    case Set(call, actor, reason) => s.(slot := SetReason(s.slot, actor, reason), sending := s.sending + {call})
    case Send(call) => s.(slot := TrySend(s.slot), sending := s.sending - {call})
    case Receive => s.(slot := Pipeline.Receive(s.slot), phase := s.phase[0 := Woken])
    case Take =>
      var (actor, reason) := TakenReason(s.slot);
      s.(slot := TakeReason(s.slot), phase := s.phase[0 := Waiting(actor, reason)])
    case Call(tid, actor, reason) => s.(phase := s.phase[tid := Waiting(actor, reason)])
    case Lock(tid) =>
      var p := PhaseOf(s, tid);
      s.(lock := Some(tid), phase := s.phase[tid := Holding(p.actor, p.reason)])
    case Source(tid, ok) =>
      var p := PhaseOf(s, tid);
      s.(phase := s.phase[tid := Read(p.actor, p.reason, if ok then Some(s.store) else None)],
         delivered := if tid == 0 then None else s.delivered)
    case Write(tid, ok) =>
      var p := PhaseOf(s, tid);
      if !ok || p.version.None? then s.(phase := s.phase[tid := Finished])
      else
        s.(phase := s.phase[tid := Written(p.actor, p.reason, p.version.value, s.disk)],
           disk := p.version, written := s.written + [p.version.value])
    case Settle(tid, undone) =>
      var p := PhaseOf(s, tid);
      s.(phase := s.phase[tid := Finished],
         disk := if undone then p.previous else s.disk,
         delivered := if tid == 0 && !undone then Some(p.wrote) else s.delivered)
    case Unlock(tid) => s.(lock := None, phase := s.phase[tid := Idle])
  }

  // ---- runs ----

  // The state a sequence of steps leads to; None if some step was not enabled.
  function After(steps: seq<Step>): Option<Sys> {
    if steps == [] then Some(INIT) else
      var before := After(steps[..|steps| - 1]);
      var step := steps[|steps| - 1];
      if before.Some? && Enabled(before.value, step) then Some(Next(before.value, step)) else None
  }

  predicate Reaches(steps: seq<Step>, s: Sys) {
    After(steps) == Some(s)
  }

  // One past the position of the last completed Trigger, and of the worker's last source read.
  function LastSend(steps: seq<Step>): nat {
    if steps == [] then 0
    else if steps[|steps| - 1].Send? then |steps|
    else LastSend(steps[..|steps| - 1])
  }

  predicate WorkerRead(step: Step) {
    step.Source? && step.tid == 0
  }

  function LastRead(steps: seq<Step>): nat {
    if steps == [] then 0
    else if WorkerRead(steps[|steps| - 1]) then |steps|
    else LastRead(steps[..|steps| - 1])
  }

  // The store version after the first n steps.
  function StoreAfter(steps: seq<Step>, n: nat): nat
    requires n <= |steps|
  {
    if n == 0 then 0 else StoreAfter(steps, n - 1) + if steps[n - 1].Commit? then 1 else 0
  }

  // The first non-empty reason recorded since the last Take, with the actor that gave it.
  function BatchReason(steps: seq<Step>): (string, string) {
    if steps == [] || steps[|steps| - 1].Take? then ("", "") else
      var r := BatchReason(steps[..|steps| - 1]);
      var last := steps[|steps| - 1];
      if r.1 == "" && last.Set? && last.reason != "" then (last.actor, last.reason) else r
  }

  function Count(steps: seq<Step>, wanted: Step -> bool): nat {
    if steps == [] then 0 else
      Count(steps[..|steps| - 1], wanted) + if wanted(steps[|steps| - 1]) then 1 else 0
  }

  predicate IsSend(step: Step) {
    step.Send?
  }

  predicate IsReceive(step: Step) {
    step.Receive?
  }

  // ---- the invariant ----

  predicate InCritical(p: Phase) {
    p.Holding? || p.Read? || p.Written? || p.Finished?
  }

  // The worker has a token or a reason in hand and has not read the source yet.
  predicate WorkerPending(s: Sys) {
    s.slot.wake || PhaseOf(s, 0).Woken? || PhaseOf(s, 0).Waiting? || PhaseOf(s, 0).Holding?
  }

  predicate Sorted(vs: seq<nat>) {
    forall i, j | 0 <= i < j < |vs| :: vs[i] <= vs[j]
  }

  ghost predicate Exclusive(s: Sys) {
    forall tid: nat :: InCritical(PhaseOf(s, tid)) <==> s.lock == Some(tid)
  }

  // No configuration, or one no newer than the other.
  predicate NotAfter(a: Option<nat>, b: Option<nat>) {
    a.None? || (b.Some? && a.value <= b.value)
  }

  predicate AllUpTo(vs: seq<nat>, v: nat) {
    forall i | 0 <= i < |vs| :: vs[i] <= v
  }

  // What is live once the deploy in progress, if any, has been undone.
  function Settled(s: Sys): Option<nat> {
    if s.lock.Some? && PhaseOf(s, s.lock.value).Written? then PhaseOf(s, s.lock.value).previous else s.disk
  }

  ghost predicate VersionsOrdered(s: Sys) {
    && Sorted(s.written)
    && AllUpTo(s.written, s.store)
    && (s.disk.Some? ==> s.disk.value in s.written)
    && (Settled(s).Some? ==> Settled(s).value in s.written)
    && NotAfter(Settled(s), s.disk)
    && NotAfter(s.delivered, Settled(s))
    && (forall tid: nat :: PhaseOf(s, tid).Read? && PhaseOf(s, tid).version.Some? ==>
          PhaseOf(s, tid).version.value <= s.store && AllUpTo(s.written, PhaseOf(s, tid).version.value))
    && (forall tid: nat :: PhaseOf(s, tid).Written? ==>
          s.disk == Some(PhaseOf(s, tid).wrote) && AllUpTo(s.written, PhaseOf(s, tid).wrote))
  }

  ghost predicate ReadsAccounted(s: Sys, steps: seq<Step>) {
    && s.store == StoreAfter(steps, |steps|)
    && LastRead(steps) <= |steps|
    && (PhaseOf(s, 0).Read? && PhaseOf(s, 0).version.Some? ==>
          LastRead(steps) > 0 && PhaseOf(s, 0).version.value == StoreAfter(steps, LastRead(steps)))
    && (PhaseOf(s, 0).Written? ==>
          LastRead(steps) > 0 && PhaseOf(s, 0).wrote == StoreAfter(steps, LastRead(steps)))
    && (s.delivered.Some? ==>
          LastRead(steps) > 0 && s.delivered.value == StoreAfter(steps, LastRead(steps)))
  }

  ghost predicate Inv(s: Sys, steps: seq<Step>) {
    && Exclusive(s)
    && VersionsOrdered(s)
    && ReadsAccounted(s, steps)
    && (LastSend(steps) == 0 || LastSend(steps) < LastRead(steps) || WorkerPending(s))
    && s.slot.reason == BatchReason(steps).1
    && (s.slot.reason != "" ==> s.slot.actor == BatchReason(steps).0)
    && Count(steps, IsReceive) + (if s.slot.wake then 1 else 0) <= Count(steps, IsSend)
  }

  lemma {:induction false} StoreAfterPrefix(a: seq<Step>, b: seq<Step>, n: nat)
    requires n <= |a| && a <= b
    ensures StoreAfter(a, n) == StoreAfter(b, n)
  {
    if n > 0 {
      StoreAfterPrefix(a, b, n - 1);
    }
  }

  lemma ExclusiveKept(s: Sys, step: Step)
    requires Exclusive(s) && Enabled(s, step)
    ensures Exclusive(Next(s, step))
  {
  }

  // What each step does to the live configuration: a write goes forward and can be undone, undoing puts
  // back exactly what was there, and nothing else touches it.
  lemma SettledSteps(s: Sys, step: Step)
    requires Exclusive(s) && VersionsOrdered(s) && Enabled(s, step)
    ensures var s' := Next(s, step);
      && NotAfter(Settled(s), Settled(s'))
      && (step.Settle? && step.undone ==> s'.disk == Settled(s') == Settled(s))
      && (step.Settle? && !step.undone ==> s'.disk == Settled(s') == s.disk)
      && (step.Write? && step.ok && PhaseOf(s, step.tid).version.Some? ==>
            s'.disk == PhaseOf(s, step.tid).version && Settled(s') == s.disk == Settled(s))
      && (step.Write? && !(step.ok && PhaseOf(s, step.tid).version.Some?) ==> s'.disk == s.disk && Settled(s') == Settled(s))
      && (!step.Settle? && !step.Write? ==> s'.disk == s.disk && Settled(s') == Settled(s))
  {
    hide SetReason, TrySend, TakeReason, TakenReason, Pipeline.Receive, AllUpTo, Sorted;
    ExclusiveKept(s, step);
    var s' := Next(s, step);
    assert forall tid: nat :: InCritical(PhaseOf(s, tid)) <==> s.lock == Some(tid);
    assert forall tid: nat :: InCritical(PhaseOf(s', tid)) <==> s'.lock == Some(tid);
  }

  lemma VersionsKept(s: Sys, step: Step)
    requires Exclusive(s) && VersionsOrdered(s) && Enabled(s, step)
    ensures VersionsOrdered(Next(s, step))
  {
    hide SetReason, TrySend, TakeReason, TakenReason, Pipeline.Receive;
    var s' := Next(s, step);
    ExclusiveKept(s, step);
    assert step.Write? || step.Settle? ==> InCritical(PhaseOf(s, step.tid));
    assert step.Write? || step.Settle? ==> s.lock == Some(step.tid);
    SettledSteps(s, step);
    forall tid: nat | PhaseOf(s', tid).Read? && PhaseOf(s', tid).version.Some?
      ensures PhaseOf(s', tid).version.value <= s'.store && AllUpTo(s'.written, PhaseOf(s', tid).version.value)
    {
      if !(step.Source? && step.tid == tid) {
        assert PhaseOf(s', tid) == PhaseOf(s, tid);
        assert InCritical(PhaseOf(s, tid));
      }
    }
    forall tid: nat | PhaseOf(s', tid).Written?
      ensures s'.disk == Some(PhaseOf(s', tid).wrote) && AllUpTo(s'.written, PhaseOf(s', tid).wrote)
    {
      if !(step.Write? && step.tid == tid) {
        assert PhaseOf(s', tid) == PhaseOf(s, tid);
        assert InCritical(PhaseOf(s, tid));
      }
    }
  }

  lemma ReadsKept(s: Sys, steps: seq<Step>, step: Step)
    requires Exclusive(s) && VersionsOrdered(s) && ReadsAccounted(s, steps) && Enabled(s, step)
    ensures ReadsAccounted(Next(s, step), steps + [step])
  {
    var steps' := steps + [step];
    assert steps'[..|steps|] == steps;
    StoreAfterPrefix(steps, steps', |steps|);
    StoreAfterPrefix(steps, steps', LastRead(steps));
    assert StoreAfter(steps', |steps'|) == StoreAfter(steps', |steps|) + if step.Commit? then 1 else 0;
  }

  lemma {:induction false} LastSendBound(steps: seq<Step>)
    ensures LastSend(steps) <= |steps|
    decreases |steps|
  {
    if steps != [] {
      LastSendBound(steps[..|steps| - 1]);
    }
  }

  lemma StepKeepsInv(s: Sys, steps: seq<Step>, step: Step)
    requires Inv(s, steps) && Enabled(s, step)
    ensures Inv(Next(s, step), steps + [step])
  {
    hide VersionsOrdered, ReadsAccounted, Exclusive, Settled, StoreAfter;
    var steps' := steps + [step];
    assert steps'[..|steps|] == steps && steps'[|steps|] == step;
    assert LastRead(steps') == if WorkerRead(step) then |steps'| else LastRead(steps);
    assert LastSend(steps') == if step.Send? then |steps'| else LastSend(steps);
    LastSendBound(steps);
    ExclusiveKept(s, step);
    VersionsKept(s, step);
    ReadsKept(s, steps, step);
  }

  lemma {:induction false} InvHolds(steps: seq<Step>, s: Sys)
    requires Reaches(steps, s)
    ensures Inv(s, steps)
    decreases |steps|
  {
    if steps != [] {
      var prefix := steps[..|steps| - 1];
      var before := After(prefix).value;
      InvHolds(prefix, before);
      StepKeepsInv(before, prefix, steps[|steps| - 1]);
      assert steps == prefix + [steps[|steps| - 1]];
    }
  }

  // ---- main results ----

  lemma {:induction false} SendsUpTo(steps: seq<Step>, i: nat)
    requires i < |steps| && steps[i].Send?
    ensures i < LastSend(steps) <= |steps|
    decreases |steps|
  {
    if i < |steps| - 1 {
      SendsUpTo(steps[..|steps| - 1], i);
    }
  }

  lemma {:induction false} LastReadReads(steps: seq<Step>)
    requires LastRead(steps) > 0
    ensures LastRead(steps) <= |steps| && WorkerRead(steps[LastRead(steps) - 1])
    decreases |steps|
  {
    if !WorkerRead(steps[|steps| - 1]) {
      LastReadReads(steps[..|steps| - 1]);
    }
  }

  // No trigger is lost: in any interleaving, once the wake slot is empty and the worker is idle, the
  // worker has read the source after every Trigger call that returned.
  lemma NoTriggerLost(steps: seq<Step>, s: Sys, i: nat)
    requires Reaches(steps, s) && !s.slot.wake && PhaseOf(s, 0).Idle?
    requires i < |steps| && steps[i].Send?
    ensures exists j :: i < j < |steps| && WorkerRead(steps[j])
  {
    InvHolds(steps, s);
    SendsUpTo(steps, i);
    LastReadReads(steps);
  }

  lemma {:induction false} StoreGrows(steps: seq<Step>, m: nat, n: nat)
    requires m <= n <= |steps|
    ensures StoreAfter(steps, m) <= StoreAfter(steps, n)
  {
    if m < n {
      StoreGrows(steps, m, n - 1);
    }
  }

  // If moreover the worker's latest deploy left its text live, the state on disk is no older than the store
  // was when any completed Trigger returned, and stays so whatever becomes of a direct deploy in progress.
  lemma QuiescentDiskIsFresh(steps: seq<Step>, s: Sys, i: nat)
    requires Reaches(steps, s) && !s.slot.wake && PhaseOf(s, 0).Idle? && s.delivered.Some?
    requires i < |steps| && steps[i].Send?
    ensures NotAfter(Some(StoreAfter(steps, i + 1)), s.disk)
    ensures NotAfter(Some(StoreAfter(steps, i + 1)), Settled(s))
  {
    InvHolds(steps, s);
    SendsUpTo(steps, i);
    StoreGrows(steps, i + 1, LastRead(steps));
  }

  // Whoever deploys, texts are written in store order, and the live configuration never goes back in store
  // time except that a rollback undoes its own write: what is live once writes in progress are undone only
  // moves forward.
  lemma {:induction false} DeploysMoveForward(steps: seq<Step>, s: Sys, n: nat, earlier: Sys)
    requires Reaches(steps, s) && n <= |steps| && Reaches(steps[..n], earlier)
    ensures Sorted(s.written) && AllUpTo(s.written, s.store)
    ensures s.disk.Some? ==> s.disk.value in s.written
    ensures NotAfter(Settled(earlier), Settled(s)) && NotAfter(Settled(s), s.disk)
    decreases |steps|
  {
    hide Enabled, Next, Settled;
    InvHolds(steps, s);
    if n == |steps| {
      assert steps[..n] == steps;
    } else {
      var prefix := steps[..|steps| - 1];
      var before := After(prefix).value;
      assert prefix[..n] == steps[..n];
      DeploysMoveForward(prefix, before, n, earlier);
      InvHolds(prefix, before);
      SettledSteps(before, steps[|steps| - 1]);
    }
  }

  // A rollback that restores puts back exactly what was live before its write, however long ago that was.
  lemma UndoneIsExact(steps: seq<Step>, s: Sys, tid: nat)
    requires Reaches(steps, s) && Enabled(s, Settle(tid, true))
    ensures Next(s, Settle(tid, true)).disk == PhaseOf(s, tid).previous == Settled(s)
  {
    hide Next, Settled, After;
    InvHolds(steps, s);
    SettledIsPrevious(s, tid);
    SettledSteps(s, Settle(tid, true));
  }

  lemma SettledIsPrevious(s: Sys, tid: nat)
    requires Exclusive(s) && PhaseOf(s, tid).Written?
    ensures Settled(s) == PhaseOf(s, tid).previous
  {
    assert InCritical(PhaseOf(s, tid));
  }

  // ---- the two flags of a deploy are its outcome ----

  // A deploy writes when its text is live or gets installed; it undoes when it rolls back and the restore
  // works. Every other outcome, a failed signal and a failed restore included, leaves the text live.
  predicate Writes(h: Host, before: Option<string>, r: Request) {
    IsLive(h, before, r) || Installs(h, before, r)
  }

  predicate Undoes(h: Host, before: Option<string>, r: Request) {
    WillRollBack(h, before, r) && !RestoreWillFail(h, before, r)
  }

  lemma FlagsAreTheOutcome(h: Host, before: Option<string>, r: Request)
    ensures Writes(h, before, r) ==> Renders(h, r)
    ensures Attempt(h, before, r).config
            == if Writes(h, before, r) && !Undoes(h, before, r) then Some(TextOf(h, r)) else before
  {
    hide Attempt, Rendered, Installs, RestoreWillFail, Healthy, EngineRunning, ValidState;
    OneAttempt(h, before, r);
    InstallingRenders(h, before, r);
    RestoringRollsBack(h, before, r);
  }

  lemma InstallingRenders(h: Host, before: Option<string>, r: Request)
    ensures Installs(h, before, r) ==> Renders(h, r)
    ensures Installs(h, before, r) ==> !IsLive(h, before, r)
    ensures WillRollBack(h, before, r) ==> Installs(h, before, r)
  {
    hide Rendered, ValidState;
  }

  lemma RestoringRollsBack(h: Host, before: Option<string>, r: Request)
    ensures RestoreWillFail(h, before, r) ==> WillRollBack(h, before, r)
  {
    hide Rendered, ValidState;
  }

  // At most one thread is between taking and releasing the deploy lock.
  lemma SingleFlight(steps: seq<Step>, s: Sys, a: nat, b: nat)
    requires Reaches(steps, s)
    requires InCritical(PhaseOf(s, a)) && InCritical(PhaseOf(s, b))
    ensures a == b
  {
    InvHolds(steps, s);
  }

  // A burst coalesces: the worker never wakes more often than triggers completed, and it deploys for
  // the first reason recorded since it last took one.
  lemma TriggersCoalesce(steps: seq<Step>, s: Sys)
    requires Reaches(steps, s)
    ensures Count(steps, IsReceive) <= Count(steps, IsSend)
    ensures Enabled(s, Take) && BatchReason(steps).1 != "" ==>
              Next(s, Take).phase[0] == Waiting(BatchReason(steps).0, BatchReason(steps).1)
    ensures Enabled(s, Take) && BatchReason(steps).1 == "" ==>
              Next(s, Take).phase[0] == Waiting("system", "state-change")
  {
    InvHolds(steps, s);
  }
}
