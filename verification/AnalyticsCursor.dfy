// What the persisted cursor of internal/analytics/service.go promises: no record is counted twice, and
// when none is lost.
module AnalyticsCursor {

  import opened Tailer
  import opened Aggregator
  import opened AnalyticsRun

  // How many items end at a log position.
  function Count(items: seq<Item>, end: nat): nat {
    if items == [] then 0 else
      Count(items[..|items| - 1], end) + if items[|items| - 1].end == end then 1 else 0
  }

  lemma {:induction false} CountConcat(a: seq<Item>, b: seq<Item>, end: nat)
    ensures Count(a + b, end) == Count(a, end) + Count(b, end)
    decreases |b|
  {
    if b == [] {
      assert a + b == a;
    } else {
      assert (a + b)[..|a + b| - 1] == a + b[..|b| - 1];
      CountConcat(a, b[..|b| - 1], end);
    }
  }

  lemma CountHead(items: seq<Item>, end: nat)
    requires items != []
    ensures Count(items, end) == Count([items[0]], end) + Count(items[1..], end)
  {
    assert [items[0]] + items[1..] == items;
    CountConcat([items[0]], items[1..], end);
  }

  lemma {:induction false} CountIsZero(items: seq<Item>, end: nat)
    ensures Count(items, end) == 0 <==> forall i | 0 <= i < |items| :: items[i].end != end
    decreases |items|
  {
    if items != [] {
      CountIsZero(items[..|items| - 1], end);
    }
  }

  // Lines end at different positions, after the start of the log.
  ghost predicate Increasing(log: seq<Item>) {
    && (forall i | 0 <= i < |log| :: log[i].end > 0)
    && (forall i, j | 0 <= i < j < |log| :: log[i].end < log[j].end)
  }

  lemma {:induction false} EndsAreUnique(log: seq<Item>, end: nat)
    requires Increasing(log)
    ensures Count(log, end) <= 1
    decreases |log|
  {
    if log != [] {
      var before := log[..|log| - 1];
      EndsAreUnique(before, end);
      if log[|log| - 1].end == end {
        CountIsZero(before, end);
      }
    }
  }

  lemma {:induction false} CountBetween(log: seq<Item>, from: nat, to: nat, end: nat)
    ensures Count(Between(log, from, to), end) == if from < end <= to then Count(log, end) else 0
    decreases |log|
  {
    if log != [] {
      var before, x := log[..|log| - 1], log[|log| - 1];
      CountBetween(before, from, to, end);
      if from < x.end <= to {
        CountConcat(Between(before, from, to), [x], end);
        CountOfOne(x, end);
      } else {
        assert Between(before, from, to) + [] == Between(before, from, to);
      }
    }
  }

  lemma CountOfOne(x: Item, end: nat)
    ensures Count([x], end) == if x.end == end then 1 else 0
    ensures Count([], end) == 0
  {
    assert [x][..0] == [];
  }

  lemma {:induction false} BetweenConcat(a: seq<Item>, b: seq<Item>, from: nat, to: nat)
    ensures Between(a + b, from, to) == Between(a, from, to) + Between(b, from, to)
    decreases |b|
  {
    if b == [] {
      assert a + b == a;
    } else {
      assert (a + b)[..|a + b| - 1] == a + b[..|b| - 1];
      BetweenConcat(a, b[..|b| - 1], from, to);
    }
  }

  lemma {:induction false} NoneBetween(a: seq<Item>, from: nat, to: nat)
    requires forall i | 0 <= i < |a| :: !(from < a[i].end <= to)
    ensures Between(a, from, to) == []
    decreases |a|
  {
    if a != [] {
      NoneBetween(a[..|a| - 1], from, to);
    }
  }

  lemma {:induction false} AllBetween(a: seq<Item>, from: nat, to: nat)
    requires forall i | 0 <= i < |a| :: from < a[i].end <= to
    ensures Between(a, from, to) == a
    decreases |a|
  {
    if a != [] {
      AllBetween(a[..|a| - 1], from, to);
    }
  }

  // A poll that starts at a line boundary delivers exactly the items of the whole log between the old
  // offset and the new one.
  lemma PollDeliversBetween(log: string, offset: nat, n: nat)
    requires offset <= n <= |log| && Complete(log[..offset]) == offset
    ensures var unread := log[..n][offset..];
      Items(unread, offset) == Between(Items(log, 0), offset, offset + Complete(unread))
  {
    hide Items, Complete, Between;
    var unread := log[..n][offset..];
    var to := offset + Complete(unread);
    var read := unread[..to - offset];
    var head, later := log[..offset], log[to..];
    CompletePrefix(unread);
    NoLines(unread[to - offset..], to);
    ItemsSplit(read, unread[to - offset..], offset);
    assert read + unread[to - offset..] == unread;
    assert Items(unread, offset) == Items(read, offset) + [] == Items(read, offset);
    assert log == head + (read + later);
    ItemsSplit(head, read + later, 0);
    ItemsSplit(read, later, offset);
    ItemEnds(head, 0);
    ItemEnds(read, offset);
    ItemEnds(later, to);
    NoneBetween(Items(head, 0), offset, to);
    AllBetween(Items(read, offset), offset, to);
    NoneBetween(Items(later, to), offset, to);
    BetweenConcat(Items(head, 0) + Items(read, offset), Items(later, to), offset, to);
    BetweenConcat(Items(head, 0), Items(read, offset), offset, to);
    assert Items(log, 0) == Items(head, 0) + Items(read, offset) + Items(later, to);
  }

  // ---- at most once ----

  function InMemory(s: State, end: nat): nat {
    Count(s.inflight, end) + Count(s.queue, end) + Count(s.folded, end) + Count(s.batched, end) + Count(s.retried, end)
  }

  // Where the record ending at a position can be: settled only up to the cursor, and then nowhere else;
  // between cursor and offset in memory or dropped; past the offset not read yet.
  ghost predicate Tracked(c: Setup, s: State, end: nat) {
    && s.lastPersisted <= s.cursor <= s.offset
    && Count(s.settled, end) + InMemory(s, end) <= Count(c.log, end)
    && (end > s.cursor ==> Count(s.settled, end) == 0)
    && (s.cursor < end <= s.offset ==> InMemory(s, end) + Count(s.dropped, end) == Count(c.log, end))
    && (end > s.offset ==> InMemory(s, end) == 0 && Count(s.dropped, end) == 0)
    && (s.phase.Located? ==> s.cursor <= s.phase.at <= s.offset && (end > s.phase.at ==> Count(s.batched, end) == 0))
  }

  lemma TailerStepsTrack(c: Setup, step: Step, s: State, end: nat)
    requires Can(c, step, s) && (step.Poll? || step.Enqueue?) && Tracked(c, s, end)
    ensures Tracked(c, Next(c, step, s), end)
  {
    hide Count, Between;
    CountOfNone(end);
    match step
    case Poll(to) => CountBetween(c.log, s.offset, to, end);
    case Enqueue =>
      CountHead(s.inflight, end);
      CountConcat(s.queue, [s.inflight[0]], end);
      CountConcat(s.dropped, [s.inflight[0]], end);
  }

  lemma CountOfNone(end: nat)
    ensures Count([], end) == 0
  {
  }

  lemma ServiceStepsTrack(c: Setup, step: Step, s: State, end: nat)
    requires Can(c, step, s) && Phased(s) && Tracked(c, s, end)
    requires !step.Poll? && !step.Enqueue?
    ensures Tracked(c, Next(c, step, s), end)
  {
    hide Count, ListsAll, Only, Fold, LostAtCrash;
    CountOfNone(end);
    match step
    case Consume =>
      CountHead(s.queue, end);
      CountConcat(s.folded, [s.queue[0]], end);
    case Take(out) => CountConcat(s.retried, s.folded, end);
    case Locate => CountConcat(s.settled, s.batched, end);
    case Persist(_) => CountConcat(s.settled, s.batched, end);
    case _ =>
  }

  // At most once, for every interleaving and across crashes: a record settled by a flush ends at or before
  // the persisted cursor, is settled once, and is never in memory again.
  lemma {:induction false} AtMostOnce(c: Setup, steps: seq<Step>, end: nat)
    requires Run(c, steps) && Increasing(c.log)
    ensures var s := After(c, steps);
      && Phased(s) && Tracked(c, s, end)
      && Count(s.settled, end) <= 1
      && (Count(s.settled, end) == 1 ==> end <= s.cursor && InMemory(s, end) == 0)
    decreases |steps|
  {
    hide Can, Next, Phased, Count, Increasing;
    EndsAreUnique(c.log, end);
    if steps == [] {
      CountOfNone(end);
      StartPhased();
    } else {
      var before, step := steps[..|steps| - 1], steps[|steps| - 1];
      AtMostOnce(c, before, end);
      StepKeepsPhased(c, step, After(c, before));
      StepTracks(c, step, After(c, before), end);
    }
  }

  lemma StartPhased()
    ensures Phased(START)
  {
  }

  lemma StepTracks(c: Setup, step: Step, s: State, end: nat)
    requires Can(c, step, s) && Phased(s) && Tracked(c, s, end)
    ensures Tracked(c, Next(c, step, s), end)
  {
    hide Can, Next, Phased, Tracked;
    if step.Poll? || step.Enqueue? {
      TailerStepsTrack(c, step, s, end);
    } else {
      ServiceStepsTrack(c, step, s, end);
    }
  }

  // ---- exactly once ----

  // Nothing before the cursor is missing.
  ghost predicate Safe(c: Setup, s: State) {
    forall end: nat | end <= s.cursor :: Count(s.settled, end) == Count(c.log, end)
  }

  // A record of these that ends after one position and up to another.
  ghost predicate HasBetween(items: seq<Item>, from: nat, to: nat) {
    exists i | 0 <= i < |items| :: from < items[i].end <= to
  }

  // Persisting keeps the cursor safe exactly when no record between the old cursor and the offset that was
  // read is still on its way to the service or was dropped.
  lemma PersistIsSafeExactlyWhen(c: Setup, steps: seq<Step>, known: set<string>)
    requires Run(c, steps) && Increasing(c.log)
    requires var s := After(c, steps); s.phase.Located? && Safe(c, s)
    ensures var s := After(c, steps);
      Safe(c, Next(c, Persist(known), s))
      <==> !HasBetween(s.inflight + s.queue + s.dropped, s.cursor, s.phase.at)
  {
    hide Run, After, Increasing, Count, Tracked, Safe, HasBetween, Only;
    var s := After(c, steps);
    var t := Next(c, Persist(known), s);
    var outside := s.inflight + s.queue + s.dropped;
    forall end: nat | end <= s.phase.at
      ensures Count(t.settled, end) == Count(c.log, end) <==> end <= s.cursor || Count(outside, end) == 0
    {
      AtMostOnce(c, steps, end);
      PersistAt(c, s, known, end);
    }
    SafeWithout(c, t, outside, s.cursor, s.phase.at);
  }

  lemma PersistAt(c: Setup, s: State, known: set<string>, end: nat)
    requires Phased(s) && Tracked(c, s, end) && s.phase.Located? && Safe(c, s)
    requires end <= s.phase.at
    ensures Count(Next(c, Persist(known), s).settled, end) == Count(c.log, end)
            <==> end <= s.cursor || Count(s.inflight + s.queue + s.dropped, end) == 0
  {
    hide Count, Only;
    CountOfNone(end);
    CountConcat(s.settled, s.batched, end);
    CountConcat(s.inflight, s.queue, end);
    CountConcat(s.inflight + s.queue, s.dropped, end);
  }

  lemma SafeWithout(c: Setup, t: State, outside: seq<Item>, from: nat, at: nat)
    requires t.cursor == at
    requires forall end: nat | end <= at ::
               Count(t.settled, end) == Count(c.log, end) <==> end <= from || Count(outside, end) == 0
    ensures Safe(c, t) <==> !HasBetween(outside, from, at)
  {
    hide Count;
    if i :| 0 <= i < |outside| && from < outside[i].end <= at {
      CountIsZero(outside, outside[i].end);
      assert Count(t.settled, outside[i].end) != Count(c.log, outside[i].end);
    } else {
      forall end: nat | end <= at ensures Count(t.settled, end) == Count(c.log, end) {
        CountIsZero(outside, end);
      }
    }
  }

  // Polls and flushes take turns, and the queue never overflows.
  ghost predicate TakesTurns(c: Setup, step: Step, s: State) {
    && (step.Poll? ==> s.phase.Idle?)
    && (step.StartFlush? ==> s.inflight == [])
    && (step.Enqueue? ==> |s.queue| < c.queueSize)
  }

  ghost predicate TurnsRun(c: Setup, steps: seq<Step>) {
    steps == [] ||
    var before, step := steps[..|steps| - 1], steps[|steps| - 1];
    TurnsRun(c, before) && Can(c, step, After(c, before)) && TakesTurns(c, step, After(c, before))
  }

  lemma {:induction false} TurnsRunIsRun(c: Setup, steps: seq<Step>)
    requires TurnsRun(c, steps)
    ensures Run(c, steps)
    decreases |steps|
  {
    hide Can, TakesTurns;
    if steps != [] {
      TurnsRunIsRun(c, steps[..|steps| - 1]);
    }
  }

  ghost predicate Quiet(s: State) {
    && s.dropped == []
    && (!s.phase.Idle? ==> s.inflight == [])
    && (s.phase.Drained? || s.phase.Swapped? || s.phase.Located? ==> s.queue == [])
  }

  lemma StepKeepsQuiet(c: Setup, step: Step, s: State)
    requires Can(c, step, s) && TakesTurns(c, step, s) && Quiet(s)
    ensures Quiet(Next(c, step, s))
  {
    hide Between, Fold, Only, ListsAll, LostAtCrash;
  }

  // A step other than Persist keeps the cursor and loses nothing settled.
  lemma OtherStepsKeepSafe(c: Setup, step: Step, s: State)
    requires Can(c, step, s) && !step.Persist? && Safe(c, s)
    requires forall end: nat :: Tracked(c, s, end) && Tracked(c, Next(c, step, s), end)
    ensures Safe(c, Next(c, step, s))
  {
    hide Between, Fold, Only, ListsAll, LostAtCrash, Count;
    var t := Next(c, step, s);
    forall end: nat | end <= t.cursor ensures Count(t.settled, end) == Count(c.log, end) {
      assert Tracked(c, s, end) && Tracked(c, t, end);
      if step.Locate? {
        CountConcat(s.settled, s.batched, end);
      }
    }
  }

  // Exactly once: when polls do not overlap flushes and nothing is dropped, every record before the
  // persisted cursor has been settled exactly once, whatever fails, retries or crashes in between.
  lemma {:induction false} ExactlyOnce(c: Setup, steps: seq<Step>)
    requires TurnsRun(c, steps) && Increasing(c.log)
    ensures Quiet(After(c, steps)) && Safe(c, After(c, steps))
    decreases |steps|
  {
    hide Can, Next, Tracked, Phased, Safe, Quiet, Count, Increasing, TakesTurns, Run;
    if steps == [] {
      StartIsSafe(c);
    } else {
      var before, step := steps[..|steps| - 1], steps[|steps| - 1];
      var s := After(c, before);
      TurnsRunIsRun(c, steps);
      TurnsRunIsRun(c, before);
      ExactlyOnce(c, before);
      StepKeepsQuiet(c, step, s);
      if step.Persist? {
        PersistWhileQuiet(c, before, step.known);
      } else {
        forall end: nat ensures Tracked(c, s, end) && Tracked(c, Next(c, step, s), end) {
          AtMostOnce(c, before, end);
          AtMostOnce(c, steps, end);
        }
        OtherStepsKeepSafe(c, step, s);
      }
    }
  }

  lemma StartIsSafe(c: Setup)
    requires Increasing(c.log)
    ensures Quiet(START) && Safe(c, START)
  {
    CountIsZero(c.log, 0);
  }

  lemma PersistWhileQuiet(c: Setup, steps: seq<Step>, known: set<string>)
    requires Run(c, steps) && Increasing(c.log)
    requires var s := After(c, steps); Can(c, Persist(known), s) && Quiet(s) && Safe(c, s)
    ensures Safe(c, Next(c, Persist(known), After(c, steps)))
  {
    hide Run, After, Increasing, Next, Safe;
    var s := After(c, steps);
    PersistIsSafeExactlyWhen(c, steps, known);
    assert s.inflight + s.queue + s.dropped == [];
  }

  // ---- a poll during a flush ----

  function Overlap(x: Item): seq<Step> {
    [Poll(x.end), StartFlush, DrainDone, Take([]), Locate, Persist({}), Crash]
  }

  // The poll publishes its offset, the flush persists it before the record reaches the queue, and the
  // process stops: the cursor has passed a record nothing has counted, and the next start resumes after it.
  lemma OverlapLosesARecord(x: Item, queueSize: nat, maxDests: int)
    requires x.end > 0
    ensures var c := Setup([x], queueSize, maxDests);
      && Run(c, Overlap(x))
      && After(c, Overlap(x)).settled == [] && After(c, Overlap(x)).cursor == x.end == After(c, Overlap(x)).offset
      && After(c, Overlap(x)).lost == [x]
  {
    hide Run, After, Next;
    var c, s6 := Setup([x], queueSize, maxDests), AfterPoll(x).(cursor := x.end, lastPersisted := x.end);
    PollThenTake(x, c);
    PersistThenCrash(x, c);
    var p4 := [Poll(x.end), StartFlush, DrainDone, Take([])];
    Extend(c, p4, Locate, AfterPoll(x).(phase := Located(x.end)));
    Extend(c, p4 + [Locate], Persist({}), s6);
    Extend(c, p4 + [Locate] + [Persist({})], Crash, AfterCrash(x));
    assert p4 + [Locate] + [Persist({})] + [Crash] == Overlap(x);
  }

  function AfterPoll(x: Item): State {
    START.(offset := x.end, inflight := [x], handed := [x])
  }

  function AfterCrash(x: Item): State {
    START.(offset := x.end, cursor := x.end, lost := [x], handed := [x])
  }

  lemma PollThenTake(x: Item, c: Setup)
    requires c.log == [x] && x.end > 0
    ensures var p4 := [Poll(x.end), StartFlush, DrainDone, Take([])];
      Run(c, p4) && After(c, p4) == AfterPoll(x).(phase := Swapped)
  {
    hide Run, After;
    StartRun(c);
    assert [x][..0] == [] && Between([x], 0, x.end) == [x];
    Extend(c, [], Poll(x.end), AfterPoll(x));
    var p1 := [] + [Poll(x.end)];
    Extend(c, p1, StartFlush, AfterPoll(x).(phase := Draining));
    Extend(c, p1 + [StartFlush], DrainDone, AfterPoll(x).(phase := Drained));
    Extend(c, p1 + [StartFlush] + [DrainDone], Take([]), AfterPoll(x).(phase := Swapped));
    assert p1 + [StartFlush] + [DrainDone] + [Take([])] == [Poll(x.end), StartFlush, DrainDone, Take([])];
  }

  lemma PersistThenCrash(x: Item, c: Setup)
    requires x.end > 0
    ensures var s4, s6 := AfterPoll(x).(phase := Swapped), AfterPoll(x).(cursor := x.end, lastPersisted := x.end);
      && Next(c, Locate, s4) == AfterPoll(x).(phase := Located(x.end))
      && Next(c, Persist({}), AfterPoll(x).(phase := Located(x.end))) == s6
      && Next(c, Crash, s6) == AfterCrash(x)
  {
    assert Only([], {}, true) == [] == Only([], {}, false);
    assert LostAtCrash(AfterPoll(x)) == [x];
  }

  lemma StartRun(c: Setup)
    ensures Run(c, []) && After(c, []) == START
  {
  }

  lemma Extend(c: Setup, steps: seq<Step>, step: Step, t: State)
    requires Run(c, steps) && Can(c, step, After(c, steps)) && t == Next(c, step, After(c, steps))
    ensures Run(c, steps + [step]) && After(c, steps + [step]) == t
  {
    hide Can, Next;
    assert (steps + [step])[..|steps|] == steps;
  }

  lemma StepPassesBy(c: Setup, step: Step, s: State, end: nat)
    requires Can(c, step, s) && Phased(s) && Tracked(c, s, end)
    requires end <= s.cursor && InMemory(s, end) == 0
    ensures var t := Next(c, step, s);
      end <= t.cursor && InMemory(t, end) == 0 && Count(t.settled, end) == Count(s.settled, end)
  {
    hide Count, Between, Fold, Only, ListsAll, LostAtCrash;
    CountOfNone(end);
    match step
    case Poll(to) => CountBetween(c.log, s.offset, to, end);
    case Enqueue =>
      CountHead(s.inflight, end);
      CountConcat(s.queue, [s.inflight[0]], end);
    case Consume =>
      CountHead(s.queue, end);
      CountConcat(s.folded, [s.queue[0]], end);
    case Take(out) => CountConcat(s.retried, s.folded, end);
    case Locate => CountConcat(s.settled, s.batched, end);
    case Persist(_) => CountConcat(s.settled, s.batched, end);
    case _ =>
  }

  // A position behind the cursor whose record is not in memory is never visited again: what is settled
  // there stays so, and a record lost there stays lost.
  lemma {:induction false} NeverRevisited(c: Setup, steps: seq<Step>, more: seq<Step>, end: nat)
    requires Run(c, steps + more) && Increasing(c.log)
    requires end <= After(c, steps).cursor && InMemory(After(c, steps), end) == 0
    ensures var t := After(c, steps + more);
      end <= t.cursor && InMemory(t, end) == 0 && Count(t.settled, end) == Count(After(c, steps).settled, end)
    decreases |more|
  {
    hide Can, Next, Phased, Tracked, InMemory, Count, Increasing;
    var all := steps + more;
    if more == [] {
      assert all == steps;
    } else {
      var before := steps + more[..|more| - 1];
      assert all[..|all| - 1] == before;
      NeverRevisited(c, steps, more[..|more| - 1], end);
      AtMostOnce(c, before, end);
      StepPassesBy(c, all[|all| - 1], After(c, before), end);
    }
  }
}
