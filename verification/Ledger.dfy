// internal/store/sqlite/analytics.go: the usage ledgers, the destination statistics and the log cursor.
module Ledger {

  import opened Wrappers
  import opened Text
  import opened Store
  import opened Counters

  datatype Granularity = Day | Month

  // The key of usage_periods.
  datatype Period = Period(userID: int, start: string, granularity: Granularity)

  // The key and the counters of destination_stats.
  datatype StatKey = StatKey(userID: int, day: string, dest: DestKey)

  datatype Stat = Stat(counters: Counters, lastSeen: int)

  // users holds the ids of the users table, which both tables reference with cascading deletion.
  datatype Tables = Tables(
    users: set<int>, usage: map<Period, Traffic>, stats: map<StatKey, Stat>,
    lastSeen: map<int, int>, cursor: LogCursor)

  const NO_TABLES := Tables({}, map[], map[], map[], LogCursor("", 0))

  function RowAt(usage: map<Period, Traffic>, k: Period): Traffic {
    if k in usage then usage[k] else NO_TRAFFIC
  }

  // ---- one statement each ----

  function Upsert(usage: map<Period, Traffic>, k: Period, t: Traffic): map<Period, Traffic> {
    usage[k := PlusTraffic(RowAt(usage, k), t)]
  }

  function TrafficOfUsage(u: UsageDelta): Traffic {
    Traffic(u.connections, u.bytesIn, u.bytesOut)
  }

  function Posted(usage: map<Period, Traffic>, u: UsageDelta): map<Period, Traffic> {
    Upsert(Upsert(usage, Period(u.userID, u.day, Day), TrafficOfUsage(u)),
           Period(u.userID, u.month, Month), TrafficOfUsage(u))
  }

  function Seen(lastSeen: map<int, int>, u: UsageDelta): map<int, int> {
    if u.lastSeenUnix > 0 && (u.userID in lastSeen ==> lastSeen[u.userID] < u.lastSeenUnix)
    then lastSeen[u.userID := u.lastSeenUnix] else lastSeen
  }

  function StatKeyOf(d: DestinationDelta): StatKey {
    StatKey(d.userID, d.day, KeyOf(d))
  }

  function CountersOf(d: DestinationDelta): Counters {
    Counters(d.requests, d.blocked, d.bytesIn, d.bytesOut)
  }

  function Counted(stats: map<StatKey, Stat>, d: DestinationDelta): map<StatKey, Stat> {
    var k := StatKeyOf(d);
    stats[k := Stat(Plus(if k in stats then stats[k].counters else ZERO, CountersOf(d)), d.lastSeen)]
  }

  // ---- a whole batch ----

  function PostedAll(usage: map<Period, Traffic>, us: seq<UsageDelta>): map<Period, Traffic> {
    if us == [] then usage else Posted(PostedAll(usage, us[..|us| - 1]), us[|us| - 1])
  }

  function SeenAll(lastSeen: map<int, int>, us: seq<UsageDelta>): map<int, int> {
    if us == [] then lastSeen else Seen(SeenAll(lastSeen, us[..|us| - 1]), us[|us| - 1])
  }

  function CountedAll(stats: map<StatKey, Stat>, ds: seq<DestinationDelta>): map<StatKey, Stat> {
    if ds == [] then stats else Counted(CountedAll(stats, ds[..|ds| - 1]), ds[|ds| - 1])
  }

  // The foreign keys of a batch.
  predicate KnownUsers(users: set<int>, us: seq<UsageDelta>, ds: seq<DestinationDelta>) {
    (forall u | u in us :: u.userID in users) && (forall d | d in ds :: d.userID in users)
  }

  function Applied(t: Tables, us: seq<UsageDelta>, ds: seq<DestinationDelta>, cursor: LogCursor): Tables {
    Tables(t.users, PostedAll(t.usage, us), CountedAll(t.stats, ds), SeenAll(t.lastSeen, us), cursor)
  }

  function Pruned(stats: map<StatKey, Stat>, before: string): map<StatKey, Stat> {
    map k | k in stats && !Less(k.day, before) :: stats[k]
  }

  // The rows of one user and granularity from a period on.
  predicate InReset(k: Period, user: int, from: string, g: Granularity) {
    k.userID == user && k.granularity == g && !Less(k.start, from)
  }

  function Cleared(usage: map<Period, Traffic>, user: int, from: string, g: Granularity): map<Period, Traffic> {
    map k | k in usage && !InReset(k, user, from, g) :: usage[k]
  }

  function UserDeleted(t: Tables, user: int): Tables {
    Tables(
      t.users - {user},
      map k | k in t.usage && k.userID != user :: t.usage[k],
      map k | k in t.stats && k.userID != user :: t.stats[k],
      t.lastSeen - {user},
      t.cursor)
  }

  // ---- the repository ----

  class AnalyticsRepository {
    var t: Tables

    constructor ()
      ensures t == NO_TABLES
    {
      t := NO_TABLES;
    }

    // ApplyDeltas: one transaction. fault is the number of statements that still succeed before the
    // database fails, if it does; whatever is left undone, nothing is kept.
    method ApplyDeltas(us: seq<UsageDelta>, ds: seq<DestinationDelta>, cursor: LogCursor, fault: Option<nat>) returns (ok: bool)
      modifies this
      ensures ok ==> t == Applied(old(t), us, ds, cursor)
      ensures !ok ==> t == old(t)
      ensures ok <==> fault.None? && KnownUsers(old(t).users, us, ds)
    {
      var usage, lastSeen, stats := t.usage, t.lastSeen, t.stats;
      var done := 0;
      for i := 0 to |us|
        invariant forall j | 0 <= j < i :: us[j].userID in t.users
        invariant usage == PostedAll(t.usage, us[..i]) && lastSeen == SeenAll(t.lastSeen, us[..i])
      {
        assert us[..i + 1][..i] == us[..i];
        var u := us[i];
        if fault == Some(done) || u.userID !in t.users {
          return false;
        }
        done := done + 1;
        usage := Upsert(usage, Period(u.userID, u.day, Day), TrafficOfUsage(u));
        usage := Upsert(usage, Period(u.userID, u.month, Month), TrafficOfUsage(u));
        lastSeen := Seen(lastSeen, u);
      }
      assert us[..|us|] == us;
      for i := 0 to |ds|
        invariant forall j | 0 <= j < i :: ds[j].userID in t.users
        invariant stats == CountedAll(t.stats, ds[..i])
      {
        assert ds[..i + 1][..i] == ds[..i];
        if fault == Some(done) || ds[i].userID !in t.users {
          return false;
        }
        done := done + 1;
        stats := Counted(stats, ds[i]);
      }
      assert ds[..|ds|] == ds;
      if fault.Some? {
        return false;
      }
      t := Tables(t.users, usage, stats, lastSeen, cursor);
      return true;
    }

    // available says whether the database executes the statement.
    method PruneDestinations(before: string, available: bool) returns (r: Result<nat, ()>)
      modifies this
      ensures r.Ok? <==> available
      ensures t == if available then old(t).(stats := Pruned(old(t).stats, before)) else old(t)
      ensures r.Ok? ==> r.value == |old(t).stats| - |t.stats|
    {
      if !available {
        return Err(());
      }
      var kept := Pruned(t.stats, before);
      PruneShrinks(t.stats, before);
      var n := |t.stats| - |kept|;
      t := t.(stats := kept);
      return Ok(n);
    }

    // ResetUsage clears the user's day rows from day on and month rows from month on, in one transaction;
    // fault is the number of statements that succeed before the database fails, if it does.
    method ResetUsage(user: int, day: string, month: string, fault: Option<nat>) returns (r: Result<nat, ()>)
      modifies this
      ensures r.Ok? <==> fault.None?
      ensures t == if r.Ok? then old(t).(usage := Cleared(Cleared(old(t).usage, user, day, Day), user, month, Month))
                   else old(t)
      ensures r.Ok? ==> r.value == |old(t).usage| - |t.usage|
    {
      if fault == Some(0) {
        return Err(());
      }
      var days := Cleared(t.usage, user, day, Day);
      var months := Cleared(days, user, month, Month);
      ClearShrinks(t.usage, user, day, Day);
      ClearShrinks(days, user, month, Month);
      if fault.Some? {
        return Err(());
      }
      var n := (|t.usage| - |days|) + (|days| - |months|);
      t := t.(usage := months);
      return Ok(n);
    }
  }

  lemma PruneShrinks(stats: map<StatKey, Stat>, before: string)
    ensures |Pruned(stats, before)| <= |stats|
  {
    SubsetSize(Pruned(stats, before).Keys, stats.Keys);
  }

  lemma ClearShrinks(usage: map<Period, Traffic>, user: int, from: string, g: Granularity)
    ensures |Cleared(usage, user, from, g)| <= |usage|
  {
    SubsetSize(Cleared(usage, user, from, g).Keys, usage.Keys);
  }
}
