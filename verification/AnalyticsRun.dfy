// The analytics pipeline of internal/analytics/service.go and tailer.go as atomic steps: the tailer
// goroutine polls and enqueues, the service loop consumes and flushes, the process may crash at any
// point, and the steps interleave in any order.
module AnalyticsRun {

  import opened Store
  import opened Tailer
  import opened Counters
  import opened Aggregator

  // The progress of a flush in the service loop.
  datatype Phase = Idle | Draining | Drained | Swapped | Located(at: nat)

  // Items stand for records with the log position after their line. users, batch and retry are what the
  // service holds; folded, batched and retried are the records they account for. applied and unknown are
  // the deltas written by ApplyDeltas and those of users confirmed unknown, settled their records.
  // dropped counts the records a full queue refused since the start of the process, lost those that were
  // in memory at a crash, handed all records given to the sink.
  datatype State = State(
    offset: nat, inflight: seq<Item>, queue: seq<Item>,
    users: Users, folded: seq<Item>, phase: Phase,
    batch: seq<PendingDelta>, batched: seq<Item>, retry: seq<PendingDelta>, retried: seq<Item>,
    lastPersisted: nat, cursor: nat,
    applied: seq<PendingDelta>, unknown: seq<PendingDelta>, settled: seq<Item>,
    dropped: seq<Item>, lost: seq<Item>, handed: seq<Item>)

  const START := State(0, [], [], map[], [], Idle, [], [], [], [], 0, 0, [], [], [], [], [], [])

  datatype Step =
    | Poll(to: nat)
    | Enqueue
    | Consume
    | StartFlush
    | DrainDone
    | Take(out: seq<PendingDelta>)
    | Locate
    | Fail
    | Persist(known: set<string>)
    | Crash

  // The log, the queue size and the destination cap.
  datatype Setup = Setup(log: seq<Item>, queueSize: nat, maxDests: int)

  // The records of the log after one position and up to another.
  function Between(log: seq<Item>, from: nat, to: nat): seq<Item> {
    if log == [] then [] else
      var x := log[|log| - 1];
      Between(log[..|log| - 1], from, to) + if from < x.end <= to then [x] else []
  }

  // The deltas of the users in a set, or of the others.
  function Only(ps: seq<PendingDelta>, names: set<string>, inside: bool): seq<PendingDelta> {
    if ps == [] then [] else
      var p := ps[|ps| - 1];
      Only(ps[..|ps| - 1], names, inside) + if (p.username in names) == inside then [p] else []
  }

  ghost predicate Can(c: Setup, step: Step, s: State) {
    match step
    case Poll(to) => s.inflight == [] && to >= s.offset
    case Enqueue => s.inflight != []
    case Consume => s.queue != [] && (s.phase.Idle? || s.phase.Draining?)
    case StartFlush => s.phase.Idle?
    case DrainDone => s.phase.Draining? && s.queue == []
    case Take(out) => s.phase.Drained? && ListsAll(out, s.users)
    case Locate => s.phase.Swapped?
    case Fail => s.phase.Located?
    case Persist(_) => s.phase.Located?
    case Crash => true
  }

  function LostAtCrash(s: State): seq<Item> {
    s.inflight + s.queue + s.folded + s.batched + s.retried + s.dropped
  }

  function Next(c: Setup, step: Step, s: State): State {
    match step
    case Poll(to) =>
      // poll publishes the new offset, then calls the sink.
      var recs := Between(c.log, s.offset, to);
      s.(offset := to, inflight := recs, handed := s.handed + recs)
    case Enqueue =>
      if s.inflight == [] then s
      else if |s.queue| < c.queueSize then s.(inflight := s.inflight[1..], queue := s.queue + [s.inflight[0]])
      else s.(inflight := s.inflight[1..], dropped := s.dropped + [s.inflight[0]])
    case Consume =>
      if s.queue == [] then s
      else s.(queue := s.queue[1..], users := Fold(s.users, s.queue[0].rec, c.maxDests), folded := s.folded + [s.queue[0]])
    case StartFlush => s.(phase := Draining)
    case DrainDone => s.(phase := Drained)
    case Take(out) =>
      s.(phase := Swapped, users := map[], folded := [],
         batch := s.retry + out, batched := s.retried + s.folded, retry := [], retried := [])
    case Locate =>
      if s.batch == [] && s.offset == s.lastPersisted then s.(phase := Idle, batched := [], settled := s.settled + s.batched)
      else s.(phase := Located(s.offset))
    case Fail => s.(phase := Idle, retry := s.batch, retried := s.batched, batch := [], batched := [])
    case Persist(known) =>
      if !s.phase.Located? then s else
        s.(phase := Idle, batch := [], batched := [],
           applied := s.applied + Only(s.batch, known, true), unknown := s.unknown + Only(s.batch, known, false),
           settled := s.settled + s.batched, cursor := s.phase.at, lastPersisted := s.phase.at)
    case Crash =>
      START.(offset := s.cursor, cursor := s.cursor,
             applied := s.applied, unknown := s.unknown, settled := s.settled,
             lost := s.lost + LostAtCrash(s),
             handed := s.handed)
  }

  function After(c: Setup, steps: seq<Step>): State {
    if steps == [] then START else Next(c, steps[|steps| - 1], After(c, steps[..|steps| - 1]))
  }

  ghost predicate Run(c: Setup, steps: seq<Step>) {
    steps == [] ||
    (Run(c, steps[..|steps| - 1]) && Can(c, steps[|steps| - 1], After(c, steps[..|steps| - 1])))
  }

  // ---- conservation ----

  // What the items contribute to a user, day and selection of destinations.
  function ItemTotal(items: seq<Item>, user: string, day: string, sel: Selection): Counters {
    if items == [] then ZERO else
      Plus(ItemTotal(items[..|items| - 1], user, day, sel), Share(items[|items| - 1].rec, user, day, sel))
  }

  lemma {:induction false} ItemTotalConcat(a: seq<Item>, b: seq<Item>, user: string, day: string, sel: Selection)
    ensures ItemTotal(a + b, user, day, sel) == Plus(ItemTotal(a, user, day, sel), ItemTotal(b, user, day, sel))
    decreases |b|
  {
    hide Share;
    if b == [] {
      assert a + b == a;
    } else {
      assert (a + b)[..|a + b| - 1] == a + b[..|b| - 1];
      ItemTotalConcat(a, b[..|b| - 1], user, day, sel);
    }
  }

  lemma ItemTotalOfOne(x: Item, user: string, day: string, sel: Selection)
    ensures ItemTotal([x], user, day, sel) == Share(x.rec, user, day, sel)
    ensures ItemTotal([], user, day, sel) == ZERO
  {
    hide Share;
    assert [x][..0] == [];
  }

  // A queue's head and the rest.
  lemma ItemTotalHead(items: seq<Item>, user: string, day: string, sel: Selection)
    requires items != []
    ensures ItemTotal(items, user, day, sel)
            == Plus(Share(items[0].rec, user, day, sel), ItemTotal(items[1..], user, day, sel))
  {
    hide ItemTotal;
    assert [items[0]] + items[1..] == items;
    ItemTotalConcat([items[0]], items[1..], user, day, sel);
    ItemTotalOfOne(items[0], user, day, sel);
  }

  lemma {:induction false} OnlySplits(ps: seq<PendingDelta>, names: set<string>, user: string, day: string, sel: Selection)
    ensures Taken(ps, user, day, sel)
            == Plus(Taken(Only(ps, names, true), user, day, sel), Taken(Only(ps, names, false), user, day, sel))
    decreases |ps|
  {
    hide Taken, Plus;
    if ps != [] {
      var before, p := ps[..|ps| - 1], ps[|ps| - 1];
      AddToOne(Taken(Only(before, names, true), user, day, sel), Taken(Only(before, names, false), user, day, sel),
               Taken([p], user, day, sel));
      var inside, outside := Only(before, names, true), Only(before, names, false);
      OnlySplits(before, names, user, day, sel);
      assert before + [p] == ps && inside + [] == inside && outside + [] == outside;
      TakenConcat(before, [p], user, day, sel);
      if p.username in names {
        TakenConcat(inside, [p], user, day, sel);
      } else {
        TakenConcat(outside, [p], user, day, sel);
      }
    } else {
      NothingHeld(user, day, sel);
      AddingZero(ZERO);
    }
  }

  lemma AddToOne(a: Counters, b: Counters, c: Counters)
    ensures Plus(Plus(a, b), c) == Plus(Plus(a, c), b) == Plus(a, Plus(b, c))
  {
  }

  // The service's counters are the totals of the records they account for.
  ghost predicate Coupled(s: State, user: string, day: string, sel: Selection) {
    && Held(s.users, user, day, sel) == ItemTotal(s.folded, user, day, sel)
    && Taken(s.batch, user, day, sel) == ItemTotal(s.batched, user, day, sel)
    && Taken(s.retry, user, day, sel) == ItemTotal(s.retried, user, day, sel)
  }

  // Where a record handed over can be: settled, held by the service, on its way there, or gone.
  function SettledTotal(s: State, user: string, day: string, sel: Selection): Counters {
    Plus(Taken(s.applied, user, day, sel), Taken(s.unknown, user, day, sel))
  }

  ghost function ServiceTotal(s: State, user: string, day: string, sel: Selection): Counters {
    Plus(Held(s.users, user, day, sel), Plus(Taken(s.batch, user, day, sel), Taken(s.retry, user, day, sel)))
  }

  function QueueTotal(s: State, user: string, day: string, sel: Selection): Counters {
    Plus(ItemTotal(s.inflight, user, day, sel), ItemTotal(s.queue, user, day, sel))
  }

  function GoneTotal(s: State, user: string, day: string, sel: Selection): Counters {
    Plus(ItemTotal(s.dropped, user, day, sel), ItemTotal(s.lost, user, day, sel))
  }

  ghost function Everywhere(s: State, user: string, day: string, sel: Selection): Counters {
    Plus(Plus(SettledTotal(s, user, day, sel), ServiceTotal(s, user, day, sel)),
         Plus(QueueTotal(s, user, day, sel), GoneTotal(s, user, day, sel)))
  }

  ghost predicate Conserved(s: State, user: string, day: string, sel: Selection) {
    ItemTotal(s.handed, user, day, sel) == Everywhere(s, user, day, sel)
  }

  lemma NothingHeld(user: string, day: string, sel: Selection)
    ensures Held(map[], user, day, sel) == ZERO && Taken([], user, day, sel) == ZERO
    ensures ItemTotal([], user, day, sel) == ZERO
  {
    NoDays(day, sel);
  }

  lemma TailerStepsConserve(c: Setup, step: Step, s: State, user: string, day: string, sel: Selection)
    requires Can(c, step, s) && (step.Poll? || step.Enqueue?)
    requires Coupled(s, user, day, sel) && Conserved(s, user, day, sel)
    ensures var t := Next(c, step, s); Coupled(t, user, day, sel) && Conserved(t, user, day, sel)
  {
    hide Held, Taken, ItemTotal, Between, Share;
    NothingHeld(user, day, sel);
    match step
    case Poll(to) => ItemTotalConcat(s.handed, Between(c.log, s.offset, to), user, day, sel);
    case Enqueue =>
      var x := s.inflight[0];
      ItemTotalHead(s.inflight, user, day, sel);
      ItemTotalConcat(s.queue, [x], user, day, sel);
      ItemTotalConcat(s.dropped, [x], user, day, sel);
      ItemTotalOfOne(x, user, day, sel);
  }

  lemma ConsumeConserves(c: Setup, s: State, user: string, day: string, sel: Selection)
    requires Can(c, Consume, s)
    requires Coupled(s, user, day, sel) && Conserved(s, user, day, sel)
    ensures var t := Next(c, Consume, s); Coupled(t, user, day, sel) && Conserved(t, user, day, sel)
  {
    hide Held, Taken, ItemTotal, Share, Fold;
    var x := s.queue[0];
    ItemTotalHead(s.queue, user, day, sel);
    ItemTotalConcat(s.folded, [x], user, day, sel);
    ItemTotalOfOne(x, user, day, sel);
    FoldAdds(s.users, x.rec, c.maxDests, user, day, sel);
  }

  lemma TakeConserves(c: Setup, out: seq<PendingDelta>, s: State, user: string, day: string, sel: Selection)
    requires Can(c, Take(out), s) && s.batch == [] && s.batched == []
    requires Coupled(s, user, day, sel) && Conserved(s, user, day, sel)
    ensures var t := Next(c, Take(out), s); Coupled(t, user, day, sel) && Conserved(t, user, day, sel)
  {
    hide Held, Taken, ItemTotal, ListsAll, SettledTotal, ServiceTotal, QueueTotal, GoneTotal;
    TakeTotals(c, out, s, user, day, sel);
    NothingHeld(user, day, sel);
    ItemTotalConcat(s.retried, s.folded, user, day, sel);
    TakenConcat(s.retry, out, user, day, sel);
    TakesWhatWasHeld(out, s.users, user, day, sel);
    Commute(Held(s.users, user, day, sel), Taken(s.retry, user, day, sel));
  }

  lemma TakeTotals(c: Setup, out: seq<PendingDelta>, s: State, user: string, day: string, sel: Selection)
    requires ListsAll(out, s.users) && s.batch == []
    ensures var t := Next(c, Take(out), s);
      && SettledTotal(t, user, day, sel) == SettledTotal(s, user, day, sel)
      && ServiceTotal(t, user, day, sel) == ServiceTotal(s, user, day, sel)
      && QueueTotal(t, user, day, sel) == QueueTotal(s, user, day, sel)
      && GoneTotal(t, user, day, sel) == GoneTotal(s, user, day, sel)
  {
    hide Held, Taken, ItemTotal, ListsAll, Plus, ServiceTotal;
    SwapsService(s, Next(c, Take(out), s), out, user, day, sel);
  }

  lemma SwapsService(s: State, t: State, out: seq<PendingDelta>, user: string, day: string, sel: Selection)
    requires ListsAll(out, s.users) && s.batch == []
    requires t.users == map[] && t.batch == s.retry + out && t.retry == []
    ensures ServiceTotal(t, user, day, sel) == ServiceTotal(s, user, day, sel)
  {
    hide Held, Taken, ListsAll, Plus;
    NothingHeld(user, day, sel);
    TakenConcat(s.retry, out, user, day, sel);
    TakesWhatWasHeld(out, s.users, user, day, sel);
    Commute(Held(s.users, user, day, sel), Taken(s.retry, user, day, sel));
  }

  lemma Commute(held: Counters, retry: Counters)
    ensures Plus(ZERO, Plus(Plus(retry, held), ZERO)) == Plus(held, Plus(ZERO, retry))
    ensures Plus(retry, held) == Plus(held, retry)
  {
  }

  lemma PersistTotals(c: Setup, known: set<string>, s: State, user: string, day: string, sel: Selection)
    requires s.phase.Located? && s.retry == []
    ensures var t := Next(c, Persist(known), s);
      && Plus(SettledTotal(t, user, day, sel), ServiceTotal(t, user, day, sel))
         == Plus(SettledTotal(s, user, day, sel), ServiceTotal(s, user, day, sel))
      && QueueTotal(t, user, day, sel) == QueueTotal(s, user, day, sel)
      && GoneTotal(t, user, day, sel) == GoneTotal(s, user, day, sel)
  {
    hide Held, Taken, ItemTotal, Only, Plus;
    NothingHeld(user, day, sel);
    var inside, outside := Only(s.batch, known, true), Only(s.batch, known, false);
    OnlySplits(s.batch, known, user, day, sel);
    TakenConcat(s.applied, inside, user, day, sel);
    TakenConcat(s.unknown, outside, user, day, sel);
    MoveBatch(Taken(s.applied, user, day, sel), Taken(s.unknown, user, day, sel), Held(s.users, user, day, sel),
              Taken(inside, user, day, sel), Taken(outside, user, day, sel));
  }

  lemma MoveBatch(applied: Counters, unknown: Counters, held: Counters, inside: Counters, outside: Counters)
    ensures Plus(Plus(Plus(applied, inside), Plus(unknown, outside)), Plus(held, Plus(ZERO, ZERO)))
            == Plus(Plus(applied, unknown), Plus(held, Plus(Plus(inside, outside), ZERO)))
  {
    assert Plus(held, Plus(ZERO, ZERO)) == held;
    assert Plus(held, Plus(Plus(inside, outside), ZERO)) == Plus(held, Plus(inside, outside));
    FourWay(applied, unknown, inside, outside);
  }

  lemma FourWay(a: Counters, b: Counters, c: Counters, d: Counters)
    ensures Plus(Plus(a, c), Plus(b, d)) == Plus(Plus(a, b), Plus(c, d))
  {
  }

  lemma PersistConserves(c: Setup, known: set<string>, s: State, user: string, day: string, sel: Selection)
    requires s.phase.Located? && s.retry == [] && s.retried == []
    requires Coupled(s, user, day, sel) && Conserved(s, user, day, sel)
    ensures var t := Next(c, Persist(known), s); Coupled(t, user, day, sel) && Conserved(t, user, day, sel)
  {
    hide Held, Taken, ItemTotal, Only, SettledTotal, ServiceTotal, QueueTotal, GoneTotal;
    NothingHeld(user, day, sel);
    PersistTotals(c, known, s, user, day, sel);
  }

  lemma LocateFailConserve(c: Setup, step: Step, s: State, user: string, day: string, sel: Selection)
    requires step.Locate? || step.Fail?
    requires s.retry == [] && s.retried == []
    requires Coupled(s, user, day, sel) && Conserved(s, user, day, sel)
    ensures var t := Next(c, step, s); Coupled(t, user, day, sel) && Conserved(t, user, day, sel)
  {
    hide Held, Taken, ItemTotal;
    NothingHeld(user, day, sel);
  }

  lemma LostTotal(s: State, user: string, day: string, sel: Selection)
    ensures ItemTotal(LostAtCrash(s), user, day, sel)
            == Plus(Plus(Plus(ItemTotal(s.inflight, user, day, sel), ItemTotal(s.queue, user, day, sel)),
                         Plus(ItemTotal(s.folded, user, day, sel), ItemTotal(s.batched, user, day, sel))),
                    Plus(ItemTotal(s.retried, user, day, sel), ItemTotal(s.dropped, user, day, sel)))
  {
    hide ItemTotal;
    ItemTotalConcat(s.inflight, s.queue, user, day, sel);
    ItemTotalConcat(s.inflight + s.queue, s.folded, user, day, sel);
    ItemTotalConcat(s.inflight + s.queue + s.folded, s.batched, user, day, sel);
    ItemTotalConcat(s.inflight + s.queue + s.folded + s.batched, s.retried, user, day, sel);
    ItemTotalConcat(s.inflight + s.queue + s.folded + s.batched + s.retried, s.dropped, user, day, sel);
  }

  lemma CrashTotals(c: Setup, s: State, user: string, day: string, sel: Selection)
    requires Coupled(s, user, day, sel)
    ensures var t := Next(c, Crash, s);
      && SettledTotal(t, user, day, sel) == SettledTotal(s, user, day, sel)
      && ServiceTotal(t, user, day, sel) == ZERO && QueueTotal(t, user, day, sel) == ZERO
      && GoneTotal(t, user, day, sel)
         == Plus(GoneTotal(s, user, day, sel), Plus(ServiceTotal(s, user, day, sel), QueueTotal(s, user, day, sel)))
  {
    hide Held, Taken, ItemTotal, LostAtCrash, Plus;
    NothingHeld(user, day, sel);
    LostTotal(s, user, day, sel);
    ItemTotalConcat(s.lost, LostAtCrash(s), user, day, sel);
    AddingZero(ZERO);
    Regroup(ItemTotal(s.inflight, user, day, sel), ItemTotal(s.queue, user, day, sel),
            ItemTotal(s.folded, user, day, sel), ItemTotal(s.batched, user, day, sel),
            ItemTotal(s.retried, user, day, sel), ItemTotal(s.dropped, user, day, sel),
            ItemTotal(s.lost, user, day, sel));
  }

  lemma AddingZero(a: Counters)
    ensures Plus(ZERO, a) == a == Plus(a, ZERO)
  {
  }

  lemma Regroup(inflight: Counters, queue: Counters, folded: Counters, batched: Counters, retried: Counters,
                dropped: Counters, lost: Counters)
    ensures Plus(ZERO, Plus(lost, Plus(Plus(Plus(inflight, queue), Plus(folded, batched)), Plus(retried, dropped))))
            == Plus(Plus(dropped, lost), Plus(Plus(folded, Plus(batched, retried)), Plus(inflight, queue)))
  {
  }

  lemma CrashConserves(c: Setup, s: State, user: string, day: string, sel: Selection)
    requires Coupled(s, user, day, sel) && Conserved(s, user, day, sel)
    ensures var t := Next(c, Crash, s); Coupled(t, user, day, sel) && Conserved(t, user, day, sel)
  {
    hide Held, Taken, ItemTotal, LostAtCrash, SettledTotal, ServiceTotal, QueueTotal, GoneTotal;
    NothingHeld(user, day, sel);
    CrashTotals(c, s, user, day, sel);
  }

  // What each phase of a flush has emptied.
  ghost predicate Phased(s: State) {
    && (s.phase.Idle? || s.phase.Draining? || s.phase.Drained? ==> s.batch == [] && s.batched == [])
    && (s.phase.Swapped? || s.phase.Located? ==> s.retry == [] && s.retried == [] && s.folded == [] && s.users == map[])
  }

  lemma StepKeepsPhased(c: Setup, step: Step, s: State)
    requires Can(c, step, s) && Phased(s)
    ensures Phased(Next(c, step, s))
  {
    hide Fold, ListsAll, Between, Only;
  }

  lemma StepConserves(c: Setup, step: Step, s: State, user: string, day: string, sel: Selection)
    requires Can(c, step, s) && Phased(s)
    requires Coupled(s, user, day, sel) && Conserved(s, user, day, sel)
    ensures var t := Next(c, step, s); Coupled(t, user, day, sel) && Conserved(t, user, day, sel)
  {
    hide ListsAll;
    match step
    case Poll(_) => TailerStepsConserve(c, step, s, user, day, sel);
    case Enqueue => TailerStepsConserve(c, step, s, user, day, sel);
    case Consume => ConsumeConserves(c, s, user, day, sel);
    case StartFlush =>
    case DrainDone =>
    case Crash => CrashConserves(c, s, user, day, sel);
    case Take(out) => TakeConserves(c, out, s, user, day, sel);
    case Persist(known) => PersistConserves(c, known, s, user, day, sel);
    case _ => LocateFailConserve(c, step, s, user, day, sel);
  }

  // Over every interleaving of polls, enqueues, folds, flushes, failed flushes, retries and crashes, the
  // traffic handed over for a user and day is the traffic applied plus what is in flight, queued, folded,
  // taken or waiting for a retry, plus what was dropped, confirmed unknown or lost in a crash.
  lemma {:induction false} Conservation(c: Setup, steps: seq<Step>, user: string, day: string, sel: Selection)
    requires Run(c, steps)
    ensures var s := After(c, steps);
      Phased(s) && Coupled(s, user, day, sel) && Conserved(s, user, day, sel)
    decreases |steps|
  {
    hide Can, Next, Coupled, Conserved, Phased;
    if steps == [] {
      StartConserves(user, day, sel);
    } else {
      var before, step := steps[..|steps| - 1], steps[|steps| - 1];
      Conservation(c, before, user, day, sel);
      StepKeepsPhased(c, step, After(c, before));
      StepConserves(c, step, After(c, before), user, day, sel);
    }
  }

  lemma StartConserves(user: string, day: string, sel: Selection)
    ensures Phased(START) && Coupled(START, user, day, sel) && Conserved(START, user, day, sel)
  {
    hide Held, Taken, ItemTotal;
    NothingHeld(user, day, sel);
  }
}
