// The analytics pipeline down to the ledger tables: what a run of internal/analytics/service.go leaves in
// the tables of internal/store/sqlite/analytics.go while accounts come and go and old rows are pruned.
module AnalyticsLedger {

  import opened Text
  import opened Store
  import opened Counters
  import opened Aggregator
  import opened Ledger
  import opened AnalyticsService
  import opened AnalyticsRun
  import LedgerAgreement
  import AnalyticsBatches

  type Op = LedgerAgreement.Op

  // What else happens to the store just before a step, and what it answers during the step.
  datatype Moment = Moment(changes: seq<Op>, lookup: string -> Lookup)

  function Changed(t: Tables, changes: seq<Op>): Tables {
    if changes == [] then t else LedgerAgreement.Step(Changed(t, changes[..|changes| - 1]), changes[|changes| - 1])
  }

  function Flushed(s: State, lookup: string -> Lookup, path: string): Op
    requires s.phase.Located?
  {
    LedgerAgreement.Apply(ResolvedUsage(s.batch, lookup), ResolvedDests(s.batch, lookup), LogCursor(path, s.phase.at))
  }

  // The tables after a run that starts on t0. A flush offers what it resolved, with the cursor it read, to
  // ApplyDeltas, which takes it when it knows all the users.
  function TablesAfter(t0: Tables, c: Setup, steps: seq<Step>, env: seq<Moment>, path: string): Tables
    requires |env| == |steps|
    decreases |steps|, 1
  {
    if steps == [] then t0 else
      var n := |steps| - 1;
      var t := TablesBefore(t0, c, steps, env, path);
      var s := After(c, steps[..n]);
      if steps[n].Persist? && s.phase.Located? then LedgerAgreement.Step(t, Flushed(s, env[n].lookup, path)) else t
  }

  // Just before the last step.
  function TablesBefore(t0: Tables, c: Setup, steps: seq<Step>, env: seq<Moment>, path: string): Tables
    requires |env| == |steps| > 0
    decreases |steps|, 0
  {
    Changed(TablesAfter(t0, c, steps[..|steps| - 1], env[..|steps| - 1], path), env[|steps| - 1].changes)
  }

  // Accounts appear and disappear and rows are pruned, but only flushes write traffic.
  predicate OnlyAround(env: seq<Moment>) {
    forall n, i | 0 <= n < |env| && 0 <= i < |env[n].changes| :: !env[n].changes[i].Apply?
  }

  // A flush treats as known exactly the names the store finds, and those ids are in the users table when it
  // writes; an account deleted in between makes ApplyDeltas fail, which is another step.
  ghost predicate StoreAnswers(t0: Tables, c: Setup, steps: seq<Step>, env: seq<Moment>, path: string)
    requires |env| == |steps|
    decreases |steps|
  {
    steps == [] ||
    var n := |steps| - 1;
    && StoreAnswers(t0, c, steps[..n], env[..n], path)
    && (steps[n].Persist? ==>
          && Finds(After(c, steps[..n]).batch, steps[n].known, env[n].lookup)
          && KnownIds(TablesBefore(t0, c, steps, env, path).users, env[n].lookup))
  }

  predicate Finds(ps: seq<PendingDelta>, known: set<string>, lookup: string -> Lookup) {
    forall i | 0 <= i < |ps| :: ps[i].username in known <==> IdOf(lookup, ps[i].username) != 0
  }

  ghost predicate KnownIds(users: set<int>, lookup: string -> Lookup) {
    forall name :: IdOf(lookup, name) != 0 ==> IdOf(lookup, name) in users
  }

  // The id is never another name's, the name has this id or is not known yet, and the account is not deleted.
  ghost predicate Owns(env: seq<Moment>, id: int, user: string) {
    && id != 0
    && (forall n, name | 0 <= n < |env| :: IdOf(env[n].lookup, name) == id ==> name == user)
    && (forall n | 0 <= n < |env| :: IdOf(env[n].lookup, user) == id || IdOf(env[n].lookup, user) == 0)
    && (forall n, i | 0 <= n < |env| && 0 <= i < |env[n].changes| :: env[n].changes[i] != LedgerAgreement.DeleteUser(id))
  }

  // ---- every flush that resolves is taken ----

  lemma {:induction false} ResolvedAreKnown(ps: seq<PendingDelta>, lookup: string -> Lookup, users: set<int>)
    requires KnownIds(users, lookup)
    ensures KnownUsers(users, ResolvedUsage(ps, lookup), ResolvedDests(ps, lookup))
    decreases |ps|
  {
    hide IdOf;
    if ps != [] {
      var p := ps[|ps| - 1];
      ResolvedAreKnown(ps[..|ps| - 1], lookup, users);
      TaggedIds(p, IdOf(lookup, p.username));
    }
  }

  lemma TaggedIds(p: PendingDelta, id: int)
    ensures forall u | u in TaggedUsage(p.usage, id) :: u.userID == id
    ensures forall d | d in TaggedDests(p.dests, id) :: d.userID == id
  {
    TaggedUsageIs(p.usage, id);
    TaggedDestIds(p.dests, id);
  }

  lemma {:induction false} TaggedDestIds(ds: seq<DestinationDelta>, id: int)
    ensures forall d | d in TaggedDests(ds, id) :: d.userID == id
    decreases |ds|
  {
    if ds != [] {
      TaggedDestIds(ds[..|ds| - 1], id);
    }
  }

  // Whenever a flush gets as far as persisting, ApplyDeltas knows all the users of its batch.
  lemma PersistIsTaken(t0: Tables, c: Setup, steps: seq<Step>, env: seq<Moment>, path: string)
    requires |env| == |steps| > 0 && StoreAnswers(t0, c, steps, env, path)
    requires steps[|steps| - 1].Persist? && After(c, steps[..|steps| - 1]).phase.Located?
    ensures var t, s, lookup := TablesBefore(t0, c, steps, env, path), After(c, steps[..|steps| - 1]), env[|steps| - 1].lookup;
      && KnownUsers(t.users, ResolvedUsage(s.batch, lookup), ResolvedDests(s.batch, lookup))
      && TablesAfter(t0, c, steps, env, path)
         == Applied(t, ResolvedUsage(s.batch, lookup), ResolvedDests(s.batch, lookup), LogCursor(path, s.phase.at))
  {
    hide KnownIds, KnownUsers, TablesBefore, Finds, After;
    ResolvedAreKnown(After(c, steps[..|steps| - 1]).batch, env[|steps| - 1].lookup,
                     TablesBefore(t0, c, steps, env, path).users);
  }

  // ---- the day row of an account ----

  lemma {:induction false} ResolvedSum(ps: seq<PendingDelta>, known: set<string>, lookup: string -> Lookup, id: int, user: string, day: string)
    requires Finds(ps, known, lookup) && id != 0
    requires forall name :: IdOf(lookup, name) == id ==> name == user
    requires IdOf(lookup, user) == id || IdOf(lookup, user) == 0
    ensures LedgerAgreement.UsageSum(ResolvedUsage(ps, lookup), id, day)
            == TakenTraffic(Only(ps, known, true), user, day)
    decreases |ps|
  {
    hide IdOf, LedgerAgreement.UsageSum, TakenTraffic, TaggedUsage, PlusTraffic;
    if ps == [] {
      EmptySums(id, user, day);
    } else {
      var before, p := ps[..|ps| - 1], ps[|ps| - 1];
      var kept, tagged := Only(before, known, true), TaggedUsage(p.usage, IdOf(lookup, p.username));
      assert ps[|ps| - 1].username in known <==> IdOf(lookup, ps[|ps| - 1].username) != 0;
      assert Finds(before, known, lookup);
      ResolvedSum(before, known, lookup, id, user, day);
      if p.username in known {
        UsageSumConcat(ResolvedUsage(before, lookup), tagged, id, day);
        TaggedUsageSum(p.usage, IdOf(lookup, p.username), id, day);
        TakenTrafficConcat(kept, [p], user, day);
        TakenTrafficOfOne(p, user, day);
      } else {
        assert ResolvedUsage(before, lookup) + [] == ResolvedUsage(before, lookup) && kept + [] == kept;
      }
    }
  }

  lemma EmptySums(id: int, user: string, day: string)
    ensures LedgerAgreement.UsageSum([], id, day) == NO_TRAFFIC == TakenTraffic([], user, day)
  {
  }

  lemma TakenTrafficOfOne(p: PendingDelta, user: string, day: string)
    ensures TakenTraffic([p], user, day) == TakenTrafficPart(p, user, day)
  {
    hide TakenTrafficPart;
    assert [p][..0] == [];
  }

  // Nothing but flushes and the account's deletion touches its rows, and only flushes move the cursor.
  lemma {:induction false} ChangesKeepRow(t: Tables, changes: seq<Op>, id: int, day: string)
    requires forall i | 0 <= i < |changes| :: !changes[i].Apply? && changes[i] != LedgerAgreement.DeleteUser(id)
    ensures RowAt(Changed(t, changes).usage, Period(id, day, Day)) == RowAt(t.usage, Period(id, day, Day))
    ensures Changed(t, changes).cursor == t.cursor
    decreases |changes|
  {
    if changes != [] {
      var before := Changed(t, changes[..|changes| - 1]);
      ChangesKeepRow(t, changes[..|changes| - 1], id, day);
      ChangeKeepsRow(before, changes[|changes| - 1], id, day);
    }
  }

  lemma ChangeKeepsRow(t: Tables, op: Op, id: int, day: string)
    requires !op.Apply? && op != LedgerAgreement.DeleteUser(id)
    ensures var t' := LedgerAgreement.Step(t, op);
      RowAt(t'.usage, Period(id, day, Day)) == RowAt(t.usage, Period(id, day, Day)) && t'.cursor == t.cursor
  {
    hide Pruned;
  }

  lemma ApplyAddsToRow(t: Tables, us: seq<UsageDelta>, ds: seq<DestinationDelta>, cursor: LogCursor, id: int, day: string)
    ensures RowAt(Applied(t, us, ds, cursor).usage, Period(id, day, Day))
            == PlusTraffic(RowAt(t.usage, Period(id, day, Day)), LedgerAgreement.UsageSum(us, id, day))
    ensures Applied(t, us, ds, cursor).cursor == cursor
  {
    hide PostedAll, CountedAll, SeenAll, LedgerAgreement.UsageSum, RowAt;
    LedgerAgreement.PostAllAddsToDay(t.usage, us, id, day);
  }

  lemma Earlier(t0: Tables, c: Setup, steps: seq<Step>, env: seq<Moment>, path: string, id: int, user: string)
    requires |env| == |steps| > 0 && StoreAnswers(t0, c, steps, env, path) && Owns(env, id, user) && OnlyAround(env)
    ensures var n := |steps| - 1;
      StoreAnswers(t0, c, steps[..n], env[..n], path) && Owns(env[..n], id, user) && OnlyAround(env[..n])
  {
    hide After, Finds, IdOf, KnownIds, TablesBefore;
    var fewer := env[..|steps| - 1];
    assert forall n | 0 <= n < |fewer| :: fewer[n] == env[n];
  }

  // Over every run, on whatever tables, the day row of an account grows by exactly the traffic of the deltas
  // applied for its name, and a cursor that starts with the run stays the one the run theorems speak of. The
  // account may be unknown at first.
  lemma {:induction false} DayRowIsApplied(
      t0: Tables, c: Setup, steps: seq<Step>, env: seq<Moment>, path: string, id: int, user: string, day: string)
    requires |env| == |steps| && Run(c, steps)
    requires OnlyAround(env) && StoreAnswers(t0, c, steps, env, path) && Owns(env, id, user)
    ensures var t := TablesAfter(t0, c, steps, env, path);
      && RowAt(t.usage, Period(id, day, Day))
         == PlusTraffic(RowAt(t0.usage, Period(id, day, Day)), TakenTraffic(After(c, steps).applied, user, day))
      && (t0.cursor.offset == 0 ==> t.cursor.offset == After(c, steps).cursor)
    decreases |steps|
  {
    hide Can, RowAt, TakenTraffic, TablesAfter, TablesBefore, StoreAnswers, Owns, OnlyAround, PlusTraffic, Next;
    if steps == [] {
      StartRow(t0, c, env, path, id, user, day);
    } else {
      var n := |steps| - 1;
      Earlier(t0, c, steps, env, path, id, user);
      DayRowIsApplied(t0, c, steps[..n], env[..n], path, id, user, day);
      RowStep(t0, c, steps, env, path, id, user, day);
      Associates(RowAt(t0.usage, Period(id, day, Day)), TakenTraffic(After(c, steps[..n]).applied, user, day),
                 NewlyApplied(After(c, steps[..n]), steps[n], user, day));
    }
  }

  lemma StartRow(t0: Tables, c: Setup, env: seq<Moment>, path: string, id: int, user: string, day: string)
    requires env == []
    ensures var t := TablesAfter(t0, c, [], env, path);
      && RowAt(t.usage, Period(id, day, Day))
         == PlusTraffic(RowAt(t0.usage, Period(id, day, Day)), TakenTraffic(After(c, []).applied, user, day))
      && (t0.cursor.offset == 0 ==> t.cursor.offset == After(c, []).cursor)
  {
    hide RowAt, TablesBefore;
    assert TablesAfter(t0, c, [], env, path) == t0;
    assert After(c, []) == START;
    hide TablesAfter, After;
    EmptySums(id, user, day);
  }

  lemma Associates(a: Traffic, b: Traffic, d: Traffic)
    ensures PlusTraffic(PlusTraffic(a, b), d) == PlusTraffic(a, PlusTraffic(b, d))
  {
  }

  // What one step writes for a name.
  function NewlyApplied(s: State, step: Step, user: string, day: string): Traffic {
    if step.Persist? && s.phase.Located? then TakenTraffic(Only(s.batch, step.known, true), user, day) else NO_TRAFFIC
  }

  // The day row and the applied deltas grow by the same traffic, and the cursors stay equal.
  predicate Grows(was: Tables, s: State, t: Tables, s': State, step: Step, id: int, user: string, day: string) {
    && RowAt(t.usage, Period(id, day, Day))
       == PlusTraffic(RowAt(was.usage, Period(id, day, Day)), NewlyApplied(s, step, user, day))
    && TakenTraffic(s'.applied, user, day)
       == PlusTraffic(TakenTraffic(s.applied, user, day), NewlyApplied(s, step, user, day))
    && (was.cursor.offset == s.cursor ==> t.cursor.offset == s'.cursor)
  }

  lemma RowStep(t0: Tables, c: Setup, steps: seq<Step>, env: seq<Moment>, path: string, id: int, user: string, day: string)
    requires |env| == |steps| > 0
    requires OnlyAround(env) && StoreAnswers(t0, c, steps, env, path) && Owns(env, id, user)
    ensures var n := |steps| - 1;
      Grows(TablesAfter(t0, c, steps[..n], env[..n], path), After(c, steps[..n]),
            TablesAfter(t0, c, steps, env, path), After(c, steps), steps[n], id, user, day)
  {
    hide RowAt, TakenTraffic, StoreAnswers, Owns, OnlyAround, PlusTraffic, Next, TablesAfter, TablesBefore, After, NewlyApplied;
    var n := |steps| - 1;
    var s := After(c, steps[..n]);
    AfterLast(c, steps);
    RowBefore(t0, c, steps, env, path, id, user, day);
    if steps[n].Persist? && s.phase.Located? {
      PersistAddsToRow(t0, c, steps, env, path, id, user, day);
    } else {
      OthersKeepRow(t0, c, steps, env, path, id, user, day);
    }
  }

  lemma OthersKeepRow(t0: Tables, c: Setup, steps: seq<Step>, env: seq<Moment>, path: string, id: int, user: string, day: string)
    requires |env| == |steps| > 0
    requires !(steps[|steps| - 1].Persist? && After(c, steps[..|steps| - 1]).phase.Located?)
    ensures var before, t := TablesBefore(t0, c, steps, env, path), TablesAfter(t0, c, steps, env, path);
      var s, step := After(c, steps[..|steps| - 1]), steps[|steps| - 1];
      && RowAt(t.usage, Period(id, day, Day))
         == PlusTraffic(RowAt(before.usage, Period(id, day, Day)), NewlyApplied(s, step, user, day))
      && TakenTraffic(Next(c, step, s).applied, user, day)
         == PlusTraffic(TakenTraffic(s.applied, user, day), NewlyApplied(s, step, user, day))
      && t.cursor == before.cursor && Next(c, step, s).cursor == s.cursor
  {
    hide RowAt, TakenTraffic, PlusTraffic, Next, TablesAfter, TablesBefore, After, NewlyApplied;
    var s := After(c, steps[..|steps| - 1]);
    OthersApplyNothing(c, steps[|steps| - 1], s, user, day);
    NotTaken(t0, c, steps, env, path);
    AddsNothing(RowAt(TablesBefore(t0, c, steps, env, path).usage, Period(id, day, Day)));
    AddsNothing(TakenTraffic(s.applied, user, day));
  }

  lemma AddsNothing(a: Traffic)
    ensures PlusTraffic(a, NO_TRAFFIC) == a
  {
  }

  lemma NotTaken(t0: Tables, c: Setup, steps: seq<Step>, env: seq<Moment>, path: string)
    requires |env| == |steps| > 0
    requires !(steps[|steps| - 1].Persist? && After(c, steps[..|steps| - 1]).phase.Located?)
    ensures TablesAfter(t0, c, steps, env, path) == TablesBefore(t0, c, steps, env, path)
  {
    hide After, TablesBefore;
  }

  lemma AfterLast(c: Setup, steps: seq<Step>)
    requires steps != []
    ensures After(c, steps) == Next(c, steps[|steps| - 1], After(c, steps[..|steps| - 1]))
  {
    hide Next;
  }

  lemma OthersApplyNothing(c: Setup, step: Step, s: State, user: string, day: string)
    requires !(step.Persist? && s.phase.Located?)
    ensures NewlyApplied(s, step, user, day) == NO_TRAFFIC
    ensures Next(c, step, s).applied == s.applied && Next(c, step, s).cursor == s.cursor
  {
    hide Only, Fold, Between, LostAtCrash;
  }

  lemma RowBefore(t0: Tables, c: Setup, steps: seq<Step>, env: seq<Moment>, path: string, id: int, user: string, day: string)
    requires |env| == |steps| > 0 && OnlyAround(env) && Owns(env, id, user)
    ensures var n := |steps| - 1;
      var was, t := TablesAfter(t0, c, steps[..n], env[..n], path), TablesBefore(t0, c, steps, env, path);
      RowAt(t.usage, Period(id, day, Day)) == RowAt(was.usage, Period(id, day, Day)) && t.cursor == was.cursor
  {
    hide RowAt, Changed, TablesAfter, IdOf;
    var n := |steps| - 1;
    ChangesKeepRow(TablesAfter(t0, c, steps[..n], env[..n], path), env[n].changes, id, day);
  }

  lemma PersistAddsToRow(t0: Tables, c: Setup, steps: seq<Step>, env: seq<Moment>, path: string, id: int, user: string, day: string)
    requires |env| == |steps| > 0 && StoreAnswers(t0, c, steps, env, path) && Owns(env, id, user)
    requires steps[|steps| - 1].Persist? && After(c, steps[..|steps| - 1]).phase.Located?
    ensures var before, t := TablesBefore(t0, c, steps, env, path), TablesAfter(t0, c, steps, env, path);
      var s, step := After(c, steps[..|steps| - 1]), steps[|steps| - 1];
      && RowAt(t.usage, Period(id, day, Day))
         == PlusTraffic(RowAt(before.usage, Period(id, day, Day)), NewlyApplied(s, step, user, day))
      && TakenTraffic(Next(c, step, s).applied, user, day)
         == PlusTraffic(TakenTraffic(s.applied, user, day), NewlyApplied(s, step, user, day))
      && t.cursor.offset == Next(c, step, s).cursor
  {
    hide RowAt, TakenTraffic, Finds, IdOf, ResolvedUsage, ResolvedDests, KnownIds, KnownUsers, Only, After, PlusTraffic,
      LedgerAgreement.UsageSum, Applied, TablesBefore, TablesAfter;
    var n := |steps| - 1;
    var s, lookup := After(c, steps[..n]), env[n].lookup;
    PersistIsTaken(t0, c, steps, env, path);
    ApplyAddsToRow(TablesBefore(t0, c, steps, env, path), ResolvedUsage(s.batch, lookup), ResolvedDests(s.batch, lookup),
                   LogCursor(path, s.phase.at), id, day);
    ResolvedSum(s.batch, steps[n].known, lookup, id, user, day);
    TakenTrafficConcat(s.applied, Only(s.batch, steps[n].known, true), user, day);
  }

  // The ledger accounts for the traffic: what the run added to the day row, with what was confirmed unknown,
  // is still on its way, dropped or lost, is the traffic handed over for the name and day, whatever
  // interleaved, failed or crashed, and whenever the account appeared.
  lemma LedgerAccountsForTraffic(
      t0: Tables, c: Setup, steps: seq<Step>, env: seq<Moment>, path: string, id: int, user: string, day: string)
    requires |env| == |steps| && Run(c, steps)
    requires OnlyAround(env) && StoreAnswers(t0, c, steps, env, path) && Owns(env, id, user)
    ensures var s := After(c, steps);
      PlusTraffic(RowAt(t0.usage, Period(id, day, Day)), TrafficOf(ItemTotal(s.handed, user, day, All)))
      == PlusTraffic(PlusTraffic(RowAt(TablesAfter(t0, c, steps, env, path).usage, Period(id, day, Day)),
                                 TakenTraffic(s.unknown, user, day)),
                     TrafficOf(Plus(ServiceTotal(s, user, day, All),
                                    Plus(QueueTotal(s, user, day, All), GoneTotal(s, user, day, All)))))
  {
    hide Run, After, TakenTraffic, ItemTotal, ServiceTotal, QueueTotal, GoneTotal, TablesAfter, RowAt, StoreAnswers, Owns,
      OnlyAround, Plus, PlusTraffic, TrafficOf;
    var s := After(c, steps);
    DayRowIsApplied(t0, c, steps, env, path, id, user, day);
    AnalyticsBatches.UsageConservation(c, steps, user, day);
    Associates(RowAt(t0.usage, Period(id, day, Day)), TakenTraffic(s.applied, user, day), TakenTraffic(s.unknown, user, day));
    Associates(RowAt(t0.usage, Period(id, day, Day)),
               PlusTraffic(TakenTraffic(s.applied, user, day), TakenTraffic(s.unknown, user, day)),
               TrafficOf(Plus(ServiceTotal(s, user, day, All),
                              Plus(QueueTotal(s, user, day, All), GoneTotal(s, user, day, All)))));
  }

  // ---- the tables of a run agree ----

  predicate NotPruned(env: seq<Moment>, day: string) {
    forall n, i | 0 <= n < |env| && 0 <= i < |env[n].changes| ::
      env[n].changes[i].Prune? ==> !Less(day, env[n].changes[i].before)
  }

  lemma {:induction false} ChangesKeepMonths(t: Tables, changes: seq<Op>)
    requires LedgerAgreement.MonthsAgree(t.usage) && forall i | 0 <= i < |changes| :: !changes[i].Apply?
    ensures LedgerAgreement.MonthsAgree(Changed(t, changes).usage)
    decreases |changes|
  {
    hide LedgerAgreement.MonthsAgree, LedgerAgreement.Step;
    if changes != [] {
      ChangesKeepMonths(t, changes[..|changes| - 1]);
      LedgerAgreement.MonthsStep(Changed(t, changes[..|changes| - 1]), changes[|changes| - 1]);
    }
  }

  lemma {:induction false} ChangesKeepDay(t: Tables, changes: seq<Op>, user: int, day: string)
    requires LedgerAgreement.DayAgrees(t, user, day)
    requires forall i | 0 <= i < |changes| :: !changes[i].Apply? && (changes[i].Prune? ==> !Less(day, changes[i].before))
    ensures LedgerAgreement.DayAgrees(Changed(t, changes), user, day)
    decreases |changes|
  {
    hide LedgerAgreement.DayAgrees, LedgerAgreement.Step, Less;
    if changes != [] {
      ChangesKeepDay(t, changes[..|changes| - 1], user, day);
      LedgerAgreement.DayStep(Changed(t, changes[..|changes| - 1]), changes[|changes| - 1], user, day);
    }
  }

  // After every run of the pipeline, on tables that agreed, and whatever accounts come and go: every month row
  // is the sum of its day rows.
  lemma {:induction false} RunsKeepMonths(t0: Tables, c: Setup, steps: seq<Step>, env: seq<Moment>, path: string)
    requires |env| == |steps| && Run(c, steps) && OnlyAround(env)
    requires LedgerAgreement.MonthsAgree(t0.usage)
    ensures LedgerAgreement.MonthsAgree(TablesAfter(t0, c, steps, env, path).usage)
    decreases |steps|
  {
    hide Can, After, Changed, LedgerAgreement.MonthsAgree, LedgerAgreement.Step, LedgerAgreement.GoodBatch;
    if steps != [] {
      var n := |steps| - 1;
      RunsKeepMonths(t0, c, steps[..n], env[..n], path);
      ChangesKeepMonths(TablesAfter(t0, c, steps[..n], env[..n], path), env[n].changes);
      if steps[n].Persist? && After(c, steps[..n]).phase.Located? {
        AnalyticsBatches.FlushedBatchesAreGood(c, steps[..n], env[n].lookup);
        LedgerAgreement.MonthsStep(TablesBefore(t0, c, steps, env, path), Flushed(After(c, steps[..n]), env[n].lookup, path));
      }
    }
  }

  // And on every day no prune has reached, a user's destination rows add up to the day's ledger row.
  lemma {:induction false} RunsKeepDay(
      t0: Tables, c: Setup, steps: seq<Step>, env: seq<Moment>, path: string, user: int, day: string)
    requires |env| == |steps| && Run(c, steps) && OnlyAround(env) && NotPruned(env, day)
    requires LedgerAgreement.DayAgrees(t0, user, day)
    ensures LedgerAgreement.DayAgrees(TablesAfter(t0, c, steps, env, path), user, day)
    decreases |steps|
  {
    hide Can, After, Changed, LedgerAgreement.DayAgrees, LedgerAgreement.Step, LedgerAgreement.GoodBatch, Less;
    if steps != [] {
      var n := |steps| - 1;
      assert forall k | 0 <= k < n :: env[..n][k] == env[k];
      RunsKeepDay(t0, c, steps[..n], env[..n], path, user, day);
      ChangesKeepDay(TablesAfter(t0, c, steps[..n], env[..n], path), env[n].changes, user, day);
      if steps[n].Persist? && After(c, steps[..n]).phase.Located? {
        AnalyticsBatches.FlushedBatchesAreGood(c, steps[..n], env[n].lookup);
        LedgerAgreement.DayStep(TablesBefore(t0, c, steps, env, path), Flushed(After(c, steps[..n]), env[n].lookup, path), user, day);
      }
    }
  }
}
