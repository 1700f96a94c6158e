// What the analytics pipeline hands to the ledger, over whole runs.
module AnalyticsBatches {

  import opened Store
  import opened Tailer
  import opened Counters
  import opened Aggregator
  import opened AnalyticsService
  import opened AnalyticsRun
  import opened FlushWindows
  import LedgerAgreement

  ghost predicate GoodDeltas(ps: seq<PendingDelta>) {
    forall i | 0 <= i < |ps| :: GoodDelta(ps[i])
  }

  // Every delta anywhere balances, and the aggregator's usage is the sum of its destinations.
  ghost predicate GoodState(c: Setup, s: State) {
    && GoodUsers(s.users)
    && GoodDeltas(s.batch) && GoodDeltas(s.retry) && GoodDeltas(s.applied) && GoodDeltas(s.unknown)
  }

  lemma ListedAreGood(out: seq<PendingDelta>, users: Users)
    requires GoodUsers(users) && ListsAll(out, users)
    ensures GoodDeltas(out)
  {
    hide UserTotals, GoodUsers, ListsRows, ListsUsage;
    forall i | 0 <= i < |out| ensures GoodDelta(out[i]) {
      var p := out[i];
      var u := users[p.username];
      forall day ensures UsageTotal(p.usage, day) == TrafficOf(DestinationTotal(p.dests, day, All)) {
        UserBalances(p, users, p.username, day);
      }
      MonthsFit(p.usage, p.username, u);
    }
  }

  lemma MonthsFit(us: seq<UsageDelta>, name: string, u: UserAgg)
    requires ListsUsage(us, name, u)
    ensures forall i | 0 <= i < |us| :: us[i].month == MonthOf(us[i].day)
  {
  }

  lemma {:induction false} OnlyGood(ps: seq<PendingDelta>, names: set<string>, inside: bool)
    requires GoodDeltas(ps)
    ensures GoodDeltas(Only(ps, names, inside))
    decreases |ps|
  {
    hide GoodDelta;
    if ps != [] {
      OnlyGood(ps[..|ps| - 1], names, inside);
    }
  }

  lemma StepKeepsGood(c: Setup, step: Step, s: State)
    requires Can(c, step, s) && GoodState(c, s)
    ensures GoodState(c, Next(c, step, s))
  {
    hide GoodDelta, GoodUsers, ListsAll, Fold, Between, LostAtCrash, Only;
    NoUsersAreGood();
    match step
    case Consume => FoldKeepsGood(s.users, s.queue[0].rec, c.maxDests);
    case Take(out) => ListedAreGood(out, s.users);
    case Persist(known) =>
      OnlyGood(s.batch, known, true);
      OnlyGood(s.batch, known, false);
    case _ =>
  }

  lemma {:induction false} RunsKeepGoodDeltas(c: Setup, steps: seq<Step>)
    requires Run(c, steps)
    ensures GoodState(c, After(c, steps))
    decreases |steps|
  {
    hide Can, Next, GoodState;
    if steps == [] {
      StartIsGood(c);
    } else {
      RunsKeepGoodDeltas(c, steps[..|steps| - 1]);
      StepKeepsGood(c, steps[|steps| - 1], After(c, steps[..|steps| - 1]));
    }
  }

  lemma StartIsGood(c: Setup)
    ensures GoodState(c, START)
  {
    NoUsersAreGood();
  }

  // Whatever happened before, retries included, the batch a flush resolves fits the ledger: months go with
  // days and destinations add up to usage, per user id and day.
  lemma FlushedBatchesAreGood(c: Setup, steps: seq<Step>, lookup: string -> Lookup)
    requires Run(c, steps)
    ensures var batch := After(c, steps).batch;
      LedgerAgreement.GoodBatch(ResolvedUsage(batch, lookup), ResolvedDests(batch, lookup))
  {
    hide Run, After;
    RunsKeepGoodDeltas(c, steps);
    ResolvedIsGood(After(c, steps).batch, lookup);
  }

  // ---- the usage side of conservation ----

  lemma {:induction false} BalancedTaken(ps: seq<PendingDelta>, user: string, day: string)
    requires GoodDeltas(ps)
    ensures TakenTraffic(ps, user, day) == TrafficOf(Taken(ps, user, day, All))
    decreases |ps|
  {
    hide GoodDelta, TakenPart, TakenTrafficPart;
    if ps != [] {
      BalancedPart(ps[|ps| - 1], user, day);
      BalancedTaken(ps[..|ps| - 1], user, day);
    }
  }

  lemma BalancedPart(p: PendingDelta, user: string, day: string)
    requires GoodDelta(p)
    ensures TakenTrafficPart(p, user, day) == TrafficOf(TakenPart(p, user, day, All))
  {
    hide UsageTotal, DestinationTotal;
    assert UsageTotal(p.usage, day) == TrafficOf(DestinationTotal(p.dests, day, All));
  }

  // The usage written for a user and day, with what is still on the way and what is gone, is the
  // traffic handed over.
  lemma UsageConservation(c: Setup, steps: seq<Step>, user: string, day: string)
    requires Run(c, steps)
    ensures var s := After(c, steps);
      TrafficOf(ItemTotal(s.handed, user, day, All))
      == PlusTraffic(PlusTraffic(TakenTraffic(s.applied, user, day), TakenTraffic(s.unknown, user, day)),
                     TrafficOf(Plus(ServiceTotal(s, user, day, All),
                                    Plus(QueueTotal(s, user, day, All), GoneTotal(s, user, day, All)))))
  {
    hide Run, After, TakenTraffic, Taken, GoodDeltas, ItemTotal, ServiceTotal, QueueTotal, GoneTotal;
    var s := After(c, steps);
    Conservation(c, steps, user, day, All);
    RunsKeepGoodDeltas(c, steps);
    BalancedTaken(s.applied, user, day);
    BalancedTaken(s.unknown, user, day);
  }
}
