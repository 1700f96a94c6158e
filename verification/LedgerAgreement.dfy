// Agreement between the tables of internal/store/sqlite/analytics.go: months against days, and
// destination rows against the day ledger, over whole runs.
module LedgerAgreement {

  import opened Wrappers
  import opened Text
  import opened Store
  import opened Counters
  import opened Ledger

  // ---- SQL's SUM over rows ----

  ghost function RowSum<K(!new)>(m: map<K, Traffic>): Traffic
    decreases |m|
  {
    if m == map[] then NO_TRAFFIC else
      var k := Any(m);
      Smaller(m, k);
      PlusTraffic(m[k], RowSum(m - {k}))
  }

  lemma RowSumUnfolds<K(!new)>(m: map<K, Traffic>)
    requires m != map[]
    ensures RowSum(m) == PlusTraffic(m[Any(m)], RowSum(m - {Any(m)}))
  {
    hide Any;
  }

  lemma {:induction false} RowSumRemove<K(!new)>(m: map<K, Traffic>, k: K)
    requires k in m
    ensures RowSum(m) == PlusTraffic(m[k], RowSum(m - {k}))
    decreases |m|
  {
    hide RowSum, Any;
    var first := Any(m);
    RowSumUnfolds(m);
    if first != k {
      Smaller(m, first);
      RowSumRemove(m - {first}, k);
      Smaller(m, k);
      RowSumRemove(m - {k}, first);
      assert (m - {first}) - {k} == (m - {k}) - {first};
    }
  }

  lemma RowSumAdd<K(!new)>(m: map<K, Traffic>, k: K, t: Traffic)
    ensures RowSum(m[k := PlusTraffic(if k in m then m[k] else NO_TRAFFIC, t)]) == PlusTraffic(RowSum(m), t)
  {
    hide RowSum;
    var n := m[k := PlusTraffic(if k in m then m[k] else NO_TRAFFIC, t)];
    RowSumRemove(n, k);
    assert n - {k} == m - {k};
    if k in m {
      RowSumRemove(m, k);
    } else {
      assert m - {k} == m;
    }
  }

  // ---- the two agreements ----

  // The day rows of a user in a month.
  function DayRows(usage: map<Period, Traffic>, user: int, month: string): map<Period, Traffic> {
    map k | k in usage && k.userID == user && k.granularity == Day && MonthOf(k.start) == month :: usage[k]
  }

  // A month row is the sum of its day rows.
  ghost predicate MonthAgrees(usage: map<Period, Traffic>, user: int, month: string) {
    RowAt(usage, Period(user, month, Month)) == RowSum(DayRows(usage, user, month))
  }

  ghost predicate MonthsAgree(usage: map<Period, Traffic>) {
    forall user, month :: MonthAgrees(usage, user, month)
  }

  // The bytes and requests of a user's destination rows on a day.
  function StatRows(stats: map<StatKey, Stat>, user: int, day: string): map<StatKey, Traffic> {
    map k | k in stats && k.userID == user && k.day == day :: TrafficOf(stats[k].counters)
  }

  ghost predicate DayAgrees(t: Tables, user: int, day: string) {
    RowAt(t.usage, Period(user, day, Day)) == RowSum(StatRows(t.stats, user, day))
  }

  // ---- batches ----

  function UsagePartOf(u: UsageDelta, user: int, day: string): Traffic {
    if u.userID == user && u.day == day then TrafficOfUsage(u) else NO_TRAFFIC
  }

  function UsageSum(us: seq<UsageDelta>, user: int, day: string): Traffic {
    if us == [] then NO_TRAFFIC else
      PlusTraffic(UsageSum(us[..|us| - 1], user, day), UsagePartOf(us[|us| - 1], user, day))
  }

  function StatPartOf(d: DestinationDelta, user: int, day: string): Traffic {
    if d.userID == user && d.day == day then TrafficOf(CountersOf(d)) else NO_TRAFFIC
  }

  function StatSum(ds: seq<DestinationDelta>, user: int, day: string): Traffic {
    if ds == [] then NO_TRAFFIC else
      PlusTraffic(StatSum(ds[..|ds| - 1], user, day), StatPartOf(ds[|ds| - 1], user, day))
  }

  // What the flush guarantees of a batch: months fit their days, and destinations add up to usage.
  ghost predicate GoodBatch(us: seq<UsageDelta>, ds: seq<DestinationDelta>) {
    && (forall i | 0 <= i < |us| :: us[i].month == MonthOf(us[i].day))
    && (forall user, day :: UsageSum(us, user, day) == StatSum(ds, user, day))
  }

  lemma PostedDayRows(usage: map<Period, Traffic>, u: UsageDelta, user: int, month: string)
    ensures var rows := DayRows(usage, user, month);
      DayRows(Posted(usage, u), user, month)
      == if u.userID == user && MonthOf(u.day) == month
         then Upsert(rows, Period(u.userID, u.day, Day), TrafficOfUsage(u)) else rows
  {
    hide MonthOf, TrafficOfUsage, PlusTraffic;
  }

  lemma PostKeepsMonths(usage: map<Period, Traffic>, u: UsageDelta)
    requires MonthsAgree(usage) && u.month == MonthOf(u.day)
    ensures MonthsAgree(Posted(usage, u))
  {
    hide RowSum, DayRows;
    forall user, month ensures MonthAgrees(Posted(usage, u), user, month) {
      assert MonthAgrees(usage, user, month);
      PostedDayRows(usage, u, user, month);
      RowSumAdd(DayRows(usage, user, month), Period(u.userID, u.day, Day), TrafficOfUsage(u));
    }
  }

  lemma {:induction false} PostAllKeepsMonths(usage: map<Period, Traffic>, us: seq<UsageDelta>)
    requires MonthsAgree(usage)
    requires forall i | 0 <= i < |us| :: us[i].month == MonthOf(us[i].day)
    ensures MonthsAgree(PostedAll(usage, us))
    decreases |us|
  {
    hide MonthsAgree, Posted;
    if us != [] {
      PostAllKeepsMonths(usage, us[..|us| - 1]);
      PostKeepsMonths(PostedAll(usage, us[..|us| - 1]), us[|us| - 1]);
    }
  }

  lemma PostAddsToDay(usage: map<Period, Traffic>, u: UsageDelta, user: int, day: string)
    ensures RowAt(Posted(usage, u), Period(user, day, Day))
            == PlusTraffic(RowAt(usage, Period(user, day, Day)), UsagePartOf(u, user, day))
  {
  }

  lemma {:induction false} PostAllAddsToDay(usage: map<Period, Traffic>, us: seq<UsageDelta>, user: int, day: string)
    ensures RowAt(PostedAll(usage, us), Period(user, day, Day))
            == PlusTraffic(RowAt(usage, Period(user, day, Day)), UsageSum(us, user, day))
    decreases |us|
  {
    hide Posted, UsagePartOf, RowAt;
    if us != [] {
      PostAllAddsToDay(usage, us[..|us| - 1], user, day);
      PostAddsToDay(PostedAll(usage, us[..|us| - 1]), us[|us| - 1], user, day);
    }
  }

  lemma CountAddsToDay(stats: map<StatKey, Stat>, d: DestinationDelta, user: int, day: string)
    ensures RowSum(StatRows(Counted(stats, d), user, day))
            == PlusTraffic(RowSum(StatRows(stats, user, day)), StatPartOf(d, user, day))
  {
    hide RowSum, KeyOf;
    var k, rows := StatKeyOf(d), StatRows(stats, user, day);
    RowSumAdd(rows, k, TrafficOf(CountersOf(d)));
    if d.userID == user && d.day == day {
      assert StatRows(Counted(stats, d), user, day)
          == rows[k := PlusTraffic(if k in rows then rows[k] else NO_TRAFFIC, TrafficOf(CountersOf(d)))];
    } else {
      assert StatRows(Counted(stats, d), user, day) == rows;
    }
  }

  lemma {:induction false} CountAllAddsToDay(stats: map<StatKey, Stat>, ds: seq<DestinationDelta>, user: int, day: string)
    ensures RowSum(StatRows(CountedAll(stats, ds), user, day))
            == PlusTraffic(RowSum(StatRows(stats, user, day)), StatSum(ds, user, day))
    decreases |ds|
  {
    hide Counted, StatPartOf, RowSum, StatRows;
    if ds != [] {
      CountAllAddsToDay(stats, ds[..|ds| - 1], user, day);
      CountAddsToDay(CountedAll(stats, ds[..|ds| - 1]), ds[|ds| - 1], user, day);
    }
  }

  lemma ApplyKeepsDay(t: Tables, us: seq<UsageDelta>, ds: seq<DestinationDelta>, cursor: LogCursor, user: int, day: string)
    requires DayAgrees(t, user, day) && GoodBatch(us, ds)
    ensures DayAgrees(Applied(t, us, ds, cursor), user, day)
  {
    hide RowSum, StatRows, UsageSum, StatSum, RowAt, PostedAll, CountedAll;
    PostAllAddsToDay(t.usage, us, user, day);
    CountAllAddsToDay(t.stats, ds, user, day);
    assert UsageSum(us, user, day) == StatSum(ds, user, day);
  }

  // ---- each row, column by column ----

  predicate WritesTo(d: DestinationDelta, user: int, day: string, host: string, port: int, protocol: string) {
    d.userID == user && d.day == day && d.host == host && d.port == port && d.protocol == protocol
  }

  function WrittenTo(ds: seq<DestinationDelta>, user: int, day: string, host: string, port: int, protocol: string): Counters {
    if ds == [] then ZERO else
      var before, d := WrittenTo(ds[..|ds| - 1], user, day, host, port, protocol), ds[|ds| - 1];
      if !WritesTo(d, user, day, host, port, protocol) then before else
        Counters(before.requests + d.requests, before.blocked + d.blocked,
                 before.bytesIn + d.bytesIn, before.bytesOut + d.bytesOut)
  }

  // The time the last delta for the row brings.
  function LastWrite(ds: seq<DestinationDelta>, user: int, day: string, host: string, port: int, protocol: string): Option<int> {
    if ds == [] then None
    else if WritesTo(ds[|ds| - 1], user, day, host, port, protocol) then Some(ds[|ds| - 1].lastSeen)
    else LastWrite(ds[..|ds| - 1], user, day, host, port, protocol)
  }

  function CountersAt(stats: map<StatKey, Stat>, k: StatKey): Counters {
    if k in stats then stats[k].counters else ZERO
  }

  lemma RowOfOne(
      stats: map<StatKey, Stat>, d: DestinationDelta, user: int, day: string, host: string, port: int, protocol: string)
    ensures var k, one := StatKey(user, day, DestKey(host, port, protocol)), Counted(stats, d);
      if WritesTo(d, user, day, host, port, protocol)
      then k in one && one[k] == Stat(Plus(CountersAt(stats, k), Counters(d.requests, d.blocked, d.bytesIn, d.bytesOut)), d.lastSeen)
      else (k in one <==> k in stats) && (k in one ==> one[k] == stats[k])
  {
    hide Plus;
  }

  lemma WrittenStep(
      ds: seq<DestinationDelta>, user: int, day: string, host: string, port: int, protocol: string, was: Counters)
    requires ds != []
    ensures var d := ds[|ds| - 1];
      var before := WrittenTo(ds[..|ds| - 1], user, day, host, port, protocol);
      Plus(was, WrittenTo(ds, user, day, host, port, protocol))
      == if WritesTo(d, user, day, host, port, protocol)
         then Plus(Plus(was, before), Counters(d.requests, d.blocked, d.bytesIn, d.bytesOut)) else Plus(was, before)
  {
    hide WritesTo;
  }

  lemma PlusNothing(c: Counters)
    ensures Plus(c, ZERO) == c
  {
  }

  // The row of a user, day, host, port and protocol grows by exactly the deltas for it, and carries the time of
  // the latest; a row is there exactly when it was or a delta is for it.
  lemma {:induction false} StatRowIsSum(
      stats: map<StatKey, Stat>, ds: seq<DestinationDelta>, user: int, day: string, host: string, port: int, protocol: string)
    ensures var k, all := StatKey(user, day, DestKey(host, port, protocol)), CountedAll(stats, ds);
      var last := LastWrite(ds, user, day, host, port, protocol);
      && (k in all <==> k in stats || last.Some?)
      && CountersAt(all, k) == Plus(CountersAt(stats, k), WrittenTo(ds, user, day, host, port, protocol))
      && (k in all ==> all[k].lastSeen == if last.Some? then last.value else stats[k].lastSeen)
    decreases |ds|
  {
    hide Counted, WrittenTo, WritesTo, Plus;
    var k := StatKey(user, day, DestKey(host, port, protocol));
    if ds == [] {
      NothingWritten(user, day, host, port, protocol);
      PlusNothing(CountersAt(stats, k));
    } else {
      StatRowIsSum(stats, ds[..|ds| - 1], user, day, host, port, protocol);
      RowOfOne(CountedAll(stats, ds[..|ds| - 1]), ds[|ds| - 1], user, day, host, port, protocol);
      WrittenStep(ds, user, day, host, port, protocol, CountersAt(stats, k));
    }
  }

  lemma NothingWritten(user: int, day: string, host: string, port: int, protocol: string)
    ensures WrittenTo([], user, day, host, port, protocol) == ZERO
  {
  }

  // The newest time a batch brings for an account.
  function NewestOf(us: seq<UsageDelta>, user: int): int {
    if us == [] then 0 else
      var before, u := NewestOf(us[..|us| - 1], user), us[|us| - 1];
      if u.userID == user && u.lastSeenUnix > before then u.lastSeenUnix else before
  }

  // An account was last seen at the newest time any batch brought for it.
  lemma {:induction false} SeenIsNewest(lastSeen: map<int, int>, us: seq<UsageDelta>, user: int)
    ensures var all, newest := SeenAll(lastSeen, us), NewestOf(us, user);
      && (user in all <==> user in lastSeen || newest > 0)
      && (user in all ==>
            all[user] == if newest > 0 && (user in lastSeen ==> newest > lastSeen[user]) then newest else lastSeen[user])
    decreases |us|
  {
    if us != [] {
      SeenIsNewest(lastSeen, us[..|us| - 1], user);
    }
  }

  // Of a deleted account no row is left, and every other row stays as it is.
  lemma DeletionCascades(t: Tables, user: int)
    ensures var t' := UserDeleted(t, user);
      && user !in t'.users && user !in t'.lastSeen && t'.cursor == t.cursor
      && (forall k :: k in t'.usage <==> k in t.usage && k.userID != user)
      && (forall k | k in t'.usage :: t'.usage[k] == t.usage[k])
      && (forall k :: k in t'.stats <==> k in t.stats && k.userID != user)
      && (forall k | k in t'.stats :: t'.stats[k] == t.stats[k])
  {
  }

  // ---- how a flush is split does not matter ----

  lemma {:induction false} PostedAllConcat(usage: map<Period, Traffic>, lastSeen: map<int, int>, a: seq<UsageDelta>, b: seq<UsageDelta>)
    ensures PostedAll(usage, a + b) == PostedAll(PostedAll(usage, a), b)
    ensures SeenAll(lastSeen, a + b) == SeenAll(SeenAll(lastSeen, a), b)
    decreases |b|
  {
    hide Posted, Seen;
    if b == [] {
      assert a + b == a;
    } else {
      assert (a + b)[..|a + b| - 1] == a + b[..|b| - 1];
      PostedAllConcat(usage, lastSeen, a, b[..|b| - 1]);
    }
  }

  lemma {:induction false} CountedAllConcat(stats: map<StatKey, Stat>, a: seq<DestinationDelta>, b: seq<DestinationDelta>)
    ensures CountedAll(stats, a + b) == CountedAll(CountedAll(stats, a), b)
    decreases |b|
  {
    hide Counted;
    if b == [] {
      assert a + b == a;
    } else {
      assert (a + b)[..|a + b| - 1] == a + b[..|b| - 1];
      CountedAllConcat(stats, a, b[..|b| - 1]);
    }
  }

  // Applying two batches leaves the tables that applying them as one would: a deferred batch merged into
  // the next flush persists the same rows.
  lemma SplitDoesNotMatter(
      t: Tables, us1: seq<UsageDelta>, ds1: seq<DestinationDelta>, c1: LogCursor,
      us2: seq<UsageDelta>, ds2: seq<DestinationDelta>, c2: LogCursor)
    ensures Applied(Applied(t, us1, ds1, c1), us2, ds2, c2) == Applied(t, us1 + us2, ds1 + ds2, c2)
  {
    hide PostedAll, SeenAll, CountedAll;
    PostedAllConcat(t.usage, t.lastSeen, us1, us2);
    CountedAllConcat(t.stats, ds1, ds2);
  }

  // ---- whole runs ----

  datatype Op =
    | Apply(us: seq<UsageDelta>, ds: seq<DestinationDelta>, cursor: LogCursor)
    | Prune(before: string)
    | AddUser(user: int)
    | DeleteUser(user: int)

  function Step(t: Tables, op: Op): Tables {
    match op
    case Apply(us, ds, cursor) => if KnownUsers(t.users, us, ds) then Applied(t, us, ds, cursor) else t
    case Prune(before) => t.(stats := Pruned(t.stats, before))
    case AddUser(user) => t.(users := t.users + {user})
    case DeleteUser(user) => UserDeleted(t, user)
  }

  function After(ops: seq<Op>): Tables {
    if ops == [] then NO_TABLES else Step(After(ops[..|ops| - 1]), ops[|ops| - 1])
  }

  ghost predicate GoodOps(ops: seq<Op>) {
    forall i | 0 <= i < |ops| :: ops[i].Apply? ==> GoodBatch(ops[i].us, ops[i].ds)
  }

  predicate NeverPruned(ops: seq<Op>, day: string) {
    forall i | 0 <= i < |ops| :: ops[i].Prune? ==> !Less(day, ops[i].before)
  }

  lemma DeleteKeepsMonths(t: Tables, deleted: int)
    requires MonthsAgree(t.usage)
    ensures MonthsAgree(UserDeleted(t, deleted).usage)
  {
    hide RowSum, MonthOf;
    var usage := UserDeleted(t, deleted).usage;
    forall user, month ensures MonthAgrees(usage, user, month) {
      assert MonthAgrees(t.usage, user, month);
      if user == deleted {
        assert DayRows(usage, user, month) == map[];
        NoRows<Period>();
      } else {
        assert DayRows(usage, user, month) == DayRows(t.usage, user, month);
      }
    }
  }

  lemma NoRows<K(!new)>()
    ensures RowSum<K>(map[]) == NO_TRAFFIC
  {
  }

  lemma DeleteKeepsDay(t: Tables, deleted: int, user: int, day: string)
    requires DayAgrees(t, user, day)
    ensures DayAgrees(UserDeleted(t, deleted), user, day)
  {
    hide RowSum;
    var after := UserDeleted(t, deleted);
    if user == deleted {
      assert StatRows(after.stats, user, day) == map[];
      NoRows<StatKey>();
    } else {
      assert StatRows(after.stats, user, day) == StatRows(t.stats, user, day);
    }
  }

  lemma PruneKeepsDay(t: Tables, before: string, user: int, day: string)
    requires DayAgrees(t, user, day) && !Less(day, before)
    ensures DayAgrees(t.(stats := Pruned(t.stats, before)), user, day)
  {
    hide RowSum, Less;
    assert StatRows(Pruned(t.stats, before), user, day) == StatRows(t.stats, user, day);
  }

  // Over any run of flushes, however split and merged, failed flushes, prunes and user deletions: every
  // month row is the sum of its day rows, and on every day no prune has reached, a user's destination rows
  // add up to the bytes and connections of the day's ledger row.
  lemma {:induction false} LedgersAgree(ops: seq<Op>)
    requires GoodOps(ops)
    ensures MonthsAgree(After(ops).usage)
    ensures forall user, day | NeverPruned(ops, day) :: DayAgrees(After(ops), user, day)
    decreases |ops|
  {
    hide MonthsAgree, DayAgrees, Applied, UserDeleted, Pruned, GoodBatch, KnownUsers, Less;
    if ops == [] {
      EmptyAgrees();
    } else {
      var before, op := ops[..|ops| - 1], ops[|ops| - 1];
      LedgersAgree(before);
      MonthsStep(After(before), op);
      forall user, day | NeverPruned(ops, day) ensures DayAgrees(After(ops), user, day) {
        assert NeverPruned(before, day);
        DayStep(After(before), op, user, day);
      }
    }
  }

  lemma EmptyAgrees()
    ensures MonthsAgree(NO_TABLES.usage)
    ensures forall user, day :: DayAgrees(NO_TABLES, user, day)
  {
    hide RowSum;
    NoRows<Period>();
    NoRows<StatKey>();
    forall user, month ensures MonthAgrees(NO_TABLES.usage, user, month) {
      assert DayRows(NO_TABLES.usage, user, month) == map[];
    }
    forall user, day ensures DayAgrees(NO_TABLES, user, day) {
      assert StatRows(NO_TABLES.stats, user, day) == map[];
    }
  }

  lemma MonthsStep(t: Tables, op: Op)
    requires MonthsAgree(t.usage) && (op.Apply? ==> GoodBatch(op.us, op.ds))
    ensures MonthsAgree(Step(t, op).usage)
  {
    hide MonthsAgree, UserDeleted, KnownUsers, UsageSum, StatSum;
    match op
    case Apply(us, ds, cursor) => PostAllKeepsMonths(t.usage, us);
    case DeleteUser(user) => DeleteKeepsMonths(t, user);
    case _ =>
  }

  lemma DayStep(t: Tables, op: Op, user: int, day: string)
    requires DayAgrees(t, user, day)
    requires op.Apply? ==> GoodBatch(op.us, op.ds)
    requires op.Prune? ==> !Less(day, op.before)
    ensures DayAgrees(Step(t, op), user, day)
  {
    hide KnownUsers, GoodBatch, Applied, UserDeleted, Pruned, RowSum, Less;
    match op
    case Apply(us, ds, cursor) =>
      if KnownUsers(t.users, us, ds) {
        ApplyKeepsDay(t, us, ds, cursor, user, day);
      }
    case Prune(before) => PruneKeepsDay(t, before, user, day);
    case DeleteUser(deleted) => DeleteKeepsDay(t, deleted, user, day);
    case AddUser(_) =>
  }

  // ---- ResetUsage ----

  function AfterReset(usage: map<Period, Traffic>, user: int, day: string): map<Period, Traffic> {
    Cleared(Cleared(usage, user, day, Day), user, MonthOf(day), Month)
  }

  // The day rows of the current month that a reset on the given day leaves behind.
  function EarlierDays(usage: map<Period, Traffic>, user: int, day: string): map<Period, Traffic> {
    map k | k in usage && k.userID == user && k.granularity == Day && MonthOf(k.start) == MonthOf(day)
            && Less(k.start, day) :: usage[k]
  }

  lemma {:induction false} PrefixOrder(a: string, b: string, n: nat)
    requires Less(if |a| < n then a else a[..n], if |b| < n then b else b[..n])
    ensures Less(a, b)
    decreases n
  {
    var p, q := if |a| < n then a else a[..n], if |b| < n then b else b[..n];
    if a != "" && b != "" && n > 0 && a[0] == b[0] {
      var a1, b1 := a[1..], b[1..];
      assert p[1..] == if |a1| < n - 1 then a1 else a1[..n - 1];
      assert q[1..] == if |b1| < n - 1 then b1 else b1[..n - 1];
      PrefixOrder(a1, b1, n - 1);
    }
  }

  lemma EarlierMonthEarlierDay(a: string, b: string)
    ensures Less(MonthOf(a), MonthOf(b)) ==> Less(a, b)
  {
    hide Less;
    if Less(MonthOf(a), MonthOf(b)) {
      PrefixOrder(a, b, 7);
    }
  }

  // What a reset does to the day rows of each month.
  lemma DayRowsAfterReset(usage: map<Period, Traffic>, user: int, day: string, month: string)
    ensures var rows, now := DayRows(AfterReset(usage, user, day), user, month), MonthOf(day);
      rows == if Less(month, now) then DayRows(usage, user, month)
              else if month == now then EarlierDays(usage, user, day) else map[]
  {
    hide Less, MonthOf;
    LessTotal(month, MonthOf(day));
    forall k: Period | k in usage && k.userID == user && k.granularity == Day && MonthOf(k.start) == month
      ensures Less(month, MonthOf(day)) ==> Less(k.start, day)
      ensures Less(MonthOf(day), month) ==> !Less(k.start, day)
    {
      EarlierMonthEarlierDay(k.start, day);
      EarlierMonthEarlierDay(day, k.start);
      LessTotal(k.start, day);
    }
  }

  // ResetUsage keeps the months of a user in agreement exactly when the user had no traffic earlier in the
  // current month; otherwise the month row is gone while earlier day rows stay.
  lemma ResetAgreesExactlyWhen(usage: map<Period, Traffic>, user: int, day: string)
    requires forall month :: MonthAgrees(usage, user, month)
    ensures (forall month :: MonthAgrees(AfterReset(usage, user, day), user, month))
            <==> RowSum(EarlierDays(usage, user, day)) == NO_TRAFFIC
  {
    hide RowSum, DayRows, EarlierDays, MonthOf, Less;
    var after, now := AfterReset(usage, user, day), MonthOf(day);
    forall month ensures MonthAgrees(after, user, month)
                         <==> month != now || RowSum(EarlierDays(usage, user, day)) == NO_TRAFFIC {
      assert MonthAgrees(usage, user, month);
      DayRowsAfterReset(usage, user, day, month);
      LessTotal(month, now);
      LessTotal(now, now);
      NoRows<Period>();
    }
    assert MonthAgrees(after, user, now) <==> RowSum(EarlierDays(usage, user, day)) == NO_TRAFFIC;
  }

  function OneRow(user: int, day: string, t: Traffic): map<Period, Traffic> {
    map[Period(user, day, Day) := t, Period(user, MonthOf(day), Month) := t]
  }

  // Any traffic on a day, then a reset on a later day of the same month: the day row survives, its month
  // row does not.
  lemma ResetLosesMonth(user: int, day: string, reset: string, t: Traffic)
    requires MonthOf(day) == MonthOf(reset) && Less(day, reset) && t != NO_TRAFFIC
    ensures MonthAgrees(OneRow(user, day, t), user, MonthOf(day))
    ensures !MonthAgrees(AfterReset(OneRow(user, day, t), user, reset), user, MonthOf(day))
  {
    hide RowSum, Less, MonthOf;
    var usage, k, month := OneRow(user, day, t), Period(user, day, Day), MonthOf(day);
    LessTotal(month, month);
    DayRowsAfterReset(usage, user, reset, month);
    assert DayRows(usage, user, month) == map[k := t];
    assert EarlierDays(usage, user, reset) == map[k := t];
    RowSumRemove(map[k := t], k);
    assert map[k := t] - {k} == map[];
    NoRows<Period>();
  }

  // Ten bytes on the first of May, a reset on the second.
  lemma ResetExample()
    ensures var usage := OneRow(7, "2026-05-01", Traffic(1, 10, 20));
      && MonthAgrees(usage, 7, "2026-05")
      && !MonthAgrees(AfterReset(usage, 7, "2026-05-02"), 7, "2026-05")
  {
    hide MonthAgrees, AfterReset, OneRow;
    assert "2026-05-01" == "2026-05-0" + "1" && "2026-05-02" == "2026-05-0" + "2";
    LessAfter("2026-05-0", "1", "2");
    assert MonthOf("2026-05-01") == "2026-05" == MonthOf("2026-05-02");
    ResetLosesMonth(7, "2026-05-01", "2026-05-02", Traffic(1, 10, 20));
  }

  lemma {:induction false} LessAfter(p: string, a: string, b: string)
    requires Less(a, b)
    ensures Less(p + a, p + b)
    decreases |p|
  {
    if p == "" {
      assert p + a == a && p + b == b;
    } else {
      assert (p + a)[1..] == p[1..] + a && (p + b)[1..] == p[1..] + b;
      LessAfter(p[1..], a, b);
    }
  }
}
