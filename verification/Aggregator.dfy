// internal/analytics/aggregator.go: the bounded in-memory stage. Records are folded into counters per
// user, day and destination, capped per flush window, and swapped out by TakePending.
module Aggregator {

  import opened Wrappers
  import opened Store
  import opened Tailer
  import opened Counters
  import Ring

  const OTHER_HOST := "(other)"

  datatype DayAgg = DayAgg(usage: Counters, dests: map<DestKey, Counters>, tracked: int)

  datatype UserAgg = UserAgg(days: map<string, DayAgg>, lastSeen: int)

  // One user's flush contribution; the service resolves the name to an id.
  datatype PendingDelta = PendingDelta(
    username: string, usage: seq<UsageDelta>, dests: seq<DestinationDelta>, records: int)

  type Users = map<string, UserAgg>

  // ---- folding one record ----

  predicate Attributed(r: Record) {
    r.username != "-" && r.username != ""
  }

  function UserOf(users: Users, name: string): UserAgg {
    if name in users then users[name] else UserAgg(map[], 0)
  }

  function DayOf(u: UserAgg, day: string): DayAgg {
    if day in u.days then u.days[day] else DayAgg(ZERO, map[], 0)
  }

  // Where the record is counted: its own destination while there is room, the overflow bucket of its
  // port and protocol beyond.
  function Bucket(d: DayAgg, r: Record, maxDests: int): DestKey {
    var key := KeyOfRecord(r);
    if key in d.dests || d.tracked < maxDests then key else key.(host := OTHER_HOST)
  }

  predicate Overflows(d: DayAgg, r: Record, maxDests: int) {
    KeyOfRecord(r) !in d.dests && d.tracked >= maxDests
  }

  function FoldDay(d: DayAgg, r: Record, maxDests: int): DayAgg {
    var key := Bucket(d, r, maxDests);
    DayAgg(
      Plus(d.usage, One(r)),
      d.dests[key := Plus(if key in d.dests then d.dests[key] else ZERO, One(r))],
      if KeyOfRecord(r) in d.dests || Overflows(d, r, maxDests) then d.tracked else d.tracked + 1)
  }

  function FoldUser(u: UserAgg, r: Record, maxDests: int): UserAgg {
    var day := FormatDay(r.unixMillis);
    UserAgg(
      u.days[day := FoldDay(DayOf(u, day), r, maxDests)],
      if r.unixMillis > u.lastSeen then r.unixMillis else u.lastSeen)
  }

  function Fold(users: Users, r: Record, maxDests: int): Users {
    if !Attributed(r) then users
    else users[r.username := FoldUser(UserOf(users, r.username), r, maxDests)]
  }

  // ---- what a flush lists ----

  function UsageOf(name: string, day: string, u: UserAgg): UsageDelta
    requires day in u.days
  {
    var c := u.days[day].usage;
    UsageDelta(0, name, day, MonthOf(day), c.bytesIn, c.bytesOut, c.requests, u.lastSeen)
  }

  function DestinationOf(day: string, k: DestKey, c: Counters, lastSeen: int): DestinationDelta {
    DestinationDelta(0, day, k.host, k.port, k.protocol, c.requests, c.blocked, c.bytesIn, c.bytesOut, lastSeen)
  }

  // The rows of one day, each destination exactly once.
  ghost predicate ListsDay(ds: seq<DestinationDelta>, day: string, m: map<DestKey, Counters>, lastSeen: int) {
    && |ds| == |m|
    && (forall i | 0 <= i < |ds| :: KeyOf(ds[i]) in m && ds[i] == DestinationOf(day, KeyOf(ds[i]), m[KeyOf(ds[i])], lastSeen))
    && (forall k | k in m :: DestinationOf(day, k, m[k], lastSeen) in ds)
  }

  function Connections(us: seq<UsageDelta>): int {
    if us == [] then 0 else Connections(us[..|us| - 1]) + us[|us| - 1].connections
  }

  // One usage row per day.
  ghost predicate ListsUsage(us: seq<UsageDelta>, name: string, u: UserAgg) {
    && |us| == |u.days|
    && (forall i | 0 <= i < |us| :: us[i].day in u.days && us[i] == UsageOf(name, us[i].day, u))
    && (forall day | day in u.days :: UsageOf(name, day, u) in us)
  }

  // Every destination of every day.
  ghost predicate ListsRows(ds: seq<DestinationDelta>, u: UserAgg) {
    && (forall i | 0 <= i < |ds| ::
          var d := ds[i];
          && d.day in u.days && KeyOf(d) in u.days[d.day].dests
          && d == DestinationOf(d.day, KeyOf(d), u.days[d.day].dests[KeyOf(d)], u.lastSeen))
    && (forall day, k | day in u.days && k in u.days[day].dests ::
          DestinationOf(day, k, u.days[day].dests[k], u.lastSeen) in ds)
  }

  ghost predicate ListsUser(p: PendingDelta, name: string, u: UserAgg) {
    && p.username == name
    && p.records == Connections(p.usage)
    && ListsUsage(p.usage, name, u)
    && ListsRows(p.dests, u)
  }

  // What the destinations m of one day contribute to another day's selection.
  ghost function DaySum(m: map<DestKey, Counters>, day: string, other: string, sel: Selection): Counters {
    if other == day then Sum(m, sel) else ZERO
  }

  // What a user holds for a day, by destination selection and in all.
  ghost function UserSum(u: UserAgg, day: string, sel: Selection): Counters {
    if day in u.days then Sum(u.days[day].dests, sel) else ZERO
  }

  function UserTraffic(u: UserAgg, day: string): Traffic {
    if day in u.days then TrafficOf(u.days[day].usage) else NO_TRAFFIC
  }

  ghost predicate DayTotals(ds: seq<DestinationDelta>, day: string, m: map<DestKey, Counters>) {
    forall other, sel :: DestinationTotal(ds, other, sel) == DaySum(m, day, other, sel)
  }

  ghost predicate UserTotals(p: PendingDelta, u: UserAgg) {
    && (forall day, sel :: DestinationTotal(p.dests, day, sel) == UserSum(u, day, sel))
    && (forall day :: UsageTotal(p.usage, day) == UserTraffic(u, day))
  }

  // Everything pending, one entry per user.
  ghost predicate ListsAll(ps: seq<PendingDelta>, users: Users) {
    && |ps| == |users|
    && (forall i | 0 <= i < |ps| ::
          var name := ps[i].username;
          name in users && ListsUser(ps[i], name, users[name]) && UserTotals(ps[i], users[name]))
    && (forall i, j | 0 <= i < j < |ps| :: ps[i].username != ps[j].username)
  }

  method TakeDay(day: string, m: map<DestKey, Counters>, lastSeen: int) returns (ds: seq<DestinationDelta>)
    ensures ListsDay(ds, day, m, lastSeen)
    ensures DayTotals(ds, day, m)
  {
    hide ListsDay, DayTotals;
    ds := [];
    var todo := m.Keys;
    NothingOfDay(day, m, lastSeen);
    while todo != {}
      invariant todo <= m.Keys
      invariant ListsDay(ds, day, m - todo, lastSeen) && DayTotals(ds, day, m - todo)
      decreases |todo|
    {
      var k := Pick(todo);
      ListedOne(ds, day, m, todo, k, lastSeen);
      ds := ds + [DestinationOf(day, k, m[k], lastSeen)];
      todo := todo - {k};
    }
    assert m - {} == m;
  }

  lemma NothingOfDay(day: string, m: map<DestKey, Counters>, lastSeen: int)
    ensures ListsDay([], day, m - m.Keys, lastSeen) && DayTotals([], day, m - m.Keys)
  {
    assert m - m.Keys == map[];
  }

  lemma ListedOne(ds: seq<DestinationDelta>, day: string, m: map<DestKey, Counters>, todo: set<DestKey>, k: DestKey, lastSeen: int)
    requires k in todo && todo <= m.Keys
    requires ListsDay(ds, day, m - todo, lastSeen) && DayTotals(ds, day, m - todo)
    ensures var d := DestinationOf(day, k, m[k], lastSeen);
      ListsDay(ds + [d], day, m - (todo - {k}), lastSeen) && DayTotals(ds + [d], day, m - (todo - {k}))
  {
    hide ListsDay, DayTotals;
    var after := m - (todo - {k});
    assert after - {k} == m - todo && after[k] == m[k];
    AddsToList(ds, day, after, k, lastSeen);
    AddsToTotals(ds, day, after, k, lastSeen);
  }

  lemma AddsToList(ds: seq<DestinationDelta>, day: string, m: map<DestKey, Counters>, k: DestKey, lastSeen: int)
    requires k in m && ListsDay(ds, day, m - {k}, lastSeen)
    ensures ListsDay(ds + [DestinationOf(day, k, m[k], lastSeen)], day, m, lastSeen)
  {
    var d := DestinationOf(day, k, m[k], lastSeen);
    var n := m - {k};
    Smaller(m, k);
    forall i | 0 <= i <= |ds|
      ensures var x := (ds + [d])[i]; KeyOf(x) in m && x == DestinationOf(day, KeyOf(x), m[KeyOf(x)], lastSeen)
    {
      if i < |ds| {
        assert KeyOf(ds[i]) in n;
      }
    }
    forall x | x in m ensures DestinationOf(day, x, m[x], lastSeen) in ds + [d] {
      if x != k {
        assert x in n;
      }
    }
  }

  lemma AddsToTotals(ds: seq<DestinationDelta>, day: string, m: map<DestKey, Counters>, k: DestKey, lastSeen: int)
    requires k in m && DayTotals(ds, day, m - {k})
    ensures DayTotals(ds + [DestinationOf(day, k, m[k], lastSeen)], day, m)
  {
    hide DaySum, DestinationTotal, DestinationPart, DestinationOf;
    var d := DestinationOf(day, k, m[k], lastSeen);
    forall other, sel ensures DestinationTotal(ds + [d], other, sel) == DaySum(m, day, other, sel) {
      DaySumStep(day, m, k, lastSeen, other, sel);
      DestinationTotalConcat(ds, [d], other, sel);
      OneDestination(d, other, sel);
    }
  }

  lemma DaySumStep(day: string, m: map<DestKey, Counters>, k: DestKey, lastSeen: int, other: string, sel: Selection)
    requires k in m
    ensures DaySum(m, day, other, sel)
            == Plus(DaySum(m - {k}, day, other, sel), DestinationPart(DestinationOf(day, k, m[k], lastSeen), other, sel))
  {
    hide Sum, Selects;
    SumRemove(m, k, sel);
  }

  method TakeUser(name: string, u: UserAgg) returns (p: PendingDelta)
    ensures ListsUser(p, name, u) && UserTotals(p, u)
  {
    hide ListsUser, UserTotals, ListsDay, DayTotals, UsageOf;
    p := PendingDelta(name, [], [], 0);
    var todo := u.days.Keys;
    NothingOfUser(name, u);
    while todo != {}
      invariant todo <= u.days.Keys
      invariant ListsUser(p, name, u.(days := u.days - todo)) && UserTotals(p, u.(days := u.days - todo))
      decreases |todo|
    {
      var day := Pick(todo);
      var ds := TakeDay(day, u.days[day].dests, u.lastSeen);
      var p' := PendingDelta(name, p.usage + [UsageOf(name, day, u)], p.dests + ds,
                             p.records + u.days[day].usage.requests);
      ListedDay(p, p', name, u, todo, day, ds);
      p := p';
      todo := todo - {day};
    }
    assert u.days - {} == u.days;
    assert u.(days := u.days - {}) == u;
  }

  lemma NothingOfUser(name: string, u: UserAgg)
    ensures var none := u.(days := u.days - u.days.Keys);
      ListsUser(PendingDelta(name, [], [], 0), name, none) && UserTotals(PendingDelta(name, [], [], 0), none)
  {
  }

  lemma ListedDay(p: PendingDelta, p': PendingDelta, name: string, u: UserAgg, todo: set<string>, day: string, ds: seq<DestinationDelta>)
    requires day in todo && todo <= u.days.Keys
    requires ListsUser(p, name, u.(days := u.days - todo)) && UserTotals(p, u.(days := u.days - todo))
    requires ListsDay(ds, day, u.days[day].dests, u.lastSeen) && DayTotals(ds, day, u.days[day].dests)
    requires p' == PendingDelta(name, p.usage + [UsageOf(name, day, u)], p.dests + ds, p.records + u.days[day].usage.requests)
    ensures var after := u.(days := u.days - (todo - {day})); ListsUser(p', name, after) && UserTotals(p', after)
  {
    hide ListsUser, UserTotals, ListsDay, DayTotals, UsageOf;
    var after := u.(days := u.days - (todo - {day}));
    assert after.days - {day} == u.days - todo && after.days[day] == u.days[day];
    assert u.(days := u.days - todo) == after.(days := after.days - {day});
    SameUsage(name, day, u, after);
    AddsDayToList(p, p', name, after, day, ds);
    AddsDayToTotals(p, p', name, after, day, ds);
  }

  lemma SameUsage(name: string, day: string, u: UserAgg, v: UserAgg)
    requires day in u.days && day in v.days && u.days[day] == v.days[day] && u.lastSeen == v.lastSeen
    ensures UsageOf(name, day, u) == UsageOf(name, day, v)
  {
  }

  lemma AddsDayToList(p: PendingDelta, p': PendingDelta, name: string, u: UserAgg, day: string, ds: seq<DestinationDelta>)
    requires day in u.days
    requires ListsUser(p, name, u.(days := u.days - {day}))
    requires ListsDay(ds, day, u.days[day].dests, u.lastSeen)
    requires p' == PendingDelta(name, p.usage + [UsageOf(name, day, u)], p.dests + ds, p.records + u.days[day].usage.requests)
    ensures ListsUser(p', name, u)
  {
    hide ListsUsage, ListsRows, ListsDay;
    assert p'.usage[..|p.usage|] == p.usage;
    AddsDayToUsage(p.usage, name, u, day);
    AddsDayToRows(p.dests, u, day, ds);
  }

  lemma AddsDayToRows(rows: seq<DestinationDelta>, u: UserAgg, day: string, ds: seq<DestinationDelta>)
    requires day in u.days
    requires ListsRows(rows, u.(days := u.days - {day}))
    requires ListsDay(ds, day, u.days[day].dests, u.lastSeen)
    ensures ListsRows(rows + ds, u)
  {
    var before, all := u.(days := u.days - {day}), rows + ds;
    forall i | 0 <= i < |all|
      ensures var d := all[i];
        && d.day in u.days && KeyOf(d) in u.days[d.day].dests
        && d == DestinationOf(d.day, KeyOf(d), u.days[d.day].dests[KeyOf(d)], u.lastSeen)
    {
      if i < |rows| {
        assert rows[i].day in before.days;
      } else {
        assert all[i] == ds[i - |rows|];
      }
    }
    forall e, k | e in u.days && k in u.days[e].dests
      ensures DestinationOf(e, k, u.days[e].dests[k], u.lastSeen) in all
    {
      if e != day {
        assert e in before.days;
      }
    }
  }

  lemma AddsDayToUsage(us: seq<UsageDelta>, name: string, u: UserAgg, day: string)
    requires day in u.days
    requires ListsUsage(us, name, u.(days := u.days - {day}))
    ensures ListsUsage(us + [UsageOf(name, day, u)], name, u)
  {
    var before, all := u.(days := u.days - {day}), us + [UsageOf(name, day, u)];
    assert before.days.Keys == u.days.Keys - {day};
    forall i | 0 <= i < |all| ensures all[i].day in u.days && all[i] == UsageOf(name, all[i].day, u) {
      if i < |us| {
        assert us[i].day in before.days;
        SameUsage(name, us[i].day, u, before);
      }
    }
    forall e | e in u.days ensures UsageOf(name, e, u) in all {
      if e != day {
        SameUsage(name, e, u, before);
        assert UsageOf(name, e, before) in us;
      }
    }
  }

  lemma AddsDayToTotals(p: PendingDelta, p': PendingDelta, name: string, u: UserAgg, day: string, ds: seq<DestinationDelta>)
    requires day in u.days
    requires UserTotals(p, u.(days := u.days - {day}))
    requires DayTotals(ds, day, u.days[day].dests)
    requires p'.usage == p.usage + [UsageOf(name, day, u)] && p'.dests == p.dests + ds
    ensures UserTotals(p', u)
  {
    hide UserSum, UserTraffic, DaySum, DestinationTotal, UsageTotal, UsagePart, UsageOf;
    forall e, sel ensures DestinationTotal(p'.dests, e, sel) == UserSum(u, e, sel) {
      DestinationTotalConcat(p.dests, ds, e, sel);
      UserSumStep(u, day, e, sel);
    }
    forall e ensures UsageTotal(p'.usage, e) == UserTraffic(u, e) {
      var x := UsageOf(name, day, u);
      UsageTotalConcat(p.usage, [x], e);
      OneUsage(x, e);
      UserTrafficStep(name, u, day, e);
    }
  }

  lemma UserSumStep(u: UserAgg, day: string, e: string, sel: Selection)
    requires day in u.days
    ensures UserSum(u, e, sel)
            == Plus(UserSum(u.(days := u.days - {day}), e, sel), DaySum(u.days[day].dests, day, e, sel))
  {
    hide Sum;
  }

  lemma UserTrafficStep(name: string, u: UserAgg, day: string, e: string)
    requires day in u.days
    ensures UserTraffic(u, e)
            == PlusTraffic(UserTraffic(u.(days := u.days - {day}), e), UsagePart(UsageOf(name, day, u), e))
  {
  }

  // ---- totals held and taken ----

  // What is pending for a user and day, by destination selection and in all.
  ghost function Held(users: Users, user: string, day: string, sel: Selection): Counters {
    UserSum(UserOf(users, user), day, sel)
  }

  function HeldTraffic(users: Users, user: string, day: string): Traffic {
    UserTraffic(UserOf(users, user), day)
  }

  function TakenPart(p: PendingDelta, user: string, day: string, sel: Selection): Counters {
    if p.username == user then DestinationTotal(p.dests, day, sel) else ZERO
  }

  function TakenTrafficPart(p: PendingDelta, user: string, day: string): Traffic {
    if p.username == user then UsageTotal(p.usage, day) else NO_TRAFFIC
  }

  function Taken(ps: seq<PendingDelta>, user: string, day: string, sel: Selection): Counters {
    if ps == [] then ZERO else
      Plus(Taken(ps[..|ps| - 1], user, day, sel), TakenPart(ps[|ps| - 1], user, day, sel))
  }

  function TakenTraffic(ps: seq<PendingDelta>, user: string, day: string): Traffic {
    if ps == [] then NO_TRAFFIC else
      PlusTraffic(TakenTraffic(ps[..|ps| - 1], user, day), TakenTrafficPart(ps[|ps| - 1], user, day))
  }

  lemma NoDays(day: string, sel: Selection)
    ensures UserSum(UserAgg(map[], 0), day, sel) == ZERO
    ensures UserTraffic(UserAgg(map[], 0), day) == NO_TRAFFIC
  {
  }

  lemma {:induction false} TakenConcat(a: seq<PendingDelta>, b: seq<PendingDelta>, user: string, day: string, sel: Selection)
    ensures Taken(a + b, user, day, sel) == Plus(Taken(a, user, day, sel), Taken(b, user, day, sel))
    decreases |b|
  {
    hide TakenPart;
    if b == [] {
      assert a + b == a;
    } else {
      assert (a + b)[..|a + b| - 1] == a + b[..|b| - 1];
      TakenConcat(a, b[..|b| - 1], user, day, sel);
    }
  }

  lemma {:induction false} TakenTrafficConcat(a: seq<PendingDelta>, b: seq<PendingDelta>, user: string, day: string)
    ensures TakenTraffic(a + b, user, day) == PlusTraffic(TakenTraffic(a, user, day), TakenTraffic(b, user, day))
    decreases |b|
  {
    hide TakenTrafficPart;
    if b == [] {
      assert a + b == a;
    } else {
      assert (a + b)[..|a + b| - 1] == a + b[..|b| - 1];
      TakenTrafficConcat(a, b[..|b| - 1], user, day);
    }
  }

  // A listing carries off exactly what was pending.
  lemma {:induction false} TakesWhatWasHeld(ps: seq<PendingDelta>, users: Users, user: string, day: string, sel: Selection)
    requires ListsAll(ps, users)
    ensures Taken(ps, user, day, sel) == Held(users, user, day, sel)
    ensures TakenTraffic(ps, user, day) == HeldTraffic(users, user, day)
    decreases |ps|
  {
    hide ListsUser, UserTotals, ListsAll, Held, HeldTraffic, TakenPart, TakenTrafficPart;
    if ps != [] {
      var last := ps[|ps| - 1];
      ListsRest(ps, users);
      TakesWhatWasHeld(ps[..|ps| - 1], users - {last.username}, user, day, sel);
      HeldStep(users, last, user, day, sel);
    } else {
      ListsNone(users, user, day, sel);
    }
  }

  lemma ListsNone(users: Users, user: string, day: string, sel: Selection)
    requires ListsAll([], users)
    ensures Held(users, user, day, sel) == ZERO && HeldTraffic(users, user, day) == NO_TRAFFIC
  {
    assert users == map[];
    NoDays(day, sel);
  }

  lemma ListsRest(ps: seq<PendingDelta>, users: Users)
    requires ps != [] && ListsAll(ps, users)
    ensures var last := ps[|ps| - 1];
      && last.username in users && UserTotals(last, users[last.username])
      && ListsAll(ps[..|ps| - 1], users - {last.username})
  {
    hide ListsUser, UserTotals;
    var rest, last := ps[..|ps| - 1], ps[|ps| - 1];
    var before := users - {last.username};
    assert before.Keys == users.Keys - {last.username};
    forall i | 0 <= i < |rest|
      ensures var name := rest[i].username;
        name in before && ListsUser(rest[i], name, before[name]) && UserTotals(rest[i], before[name])
    {
      assert ps[i].username != ps[|ps| - 1].username;
    }
  }

  lemma HeldStep(users: Users, p: PendingDelta, user: string, day: string, sel: Selection)
    requires p.username in users && UserTotals(p, users[p.username])
    ensures Held(users, user, day, sel)
            == Plus(Held(users - {p.username}, user, day, sel), TakenPart(p, user, day, sel))
    ensures HeldTraffic(users, user, day)
            == PlusTraffic(HeldTraffic(users - {p.username}, user, day), TakenTrafficPart(p, user, day))
  {
    hide UserTotals, UserSum, UserTraffic, DestinationTotal, UsageTotal;
    LastTotals(p, users[p.username], day, sel);
    NoDays(day, sel);
    if p.username != user {
      assert UserOf(users - {p.username}, user) == UserOf(users, user);
    }
  }

  lemma LastTotals(p: PendingDelta, u: UserAgg, day: string, sel: Selection)
    requires UserTotals(p, u)
    ensures DestinationTotal(p.dests, day, sel) == UserSum(u, day, sel)
    ensures UsageTotal(p.usage, day) == UserTraffic(u, day)
  {
  }

  // ---- what folding one record changes ----

  // What a record contributes, whatever the cap and the flush schedule.
  function Share(r: Record, user: string, day: string, sel: Selection): Counters {
    if Attributed(r) && r.username == user && FormatDay(r.unixMillis) == day then Part(sel, KeyOfRecord(r), One(r))
    else ZERO
  }

  lemma BucketKeepsSelection(d: DayAgg, r: Record, maxDests: int, sel: Selection)
    ensures Part(sel, Bucket(d, r, maxDests), One(r)) == Part(sel, KeyOfRecord(r), One(r))
  {
  }

  lemma FoldAdds(users: Users, r: Record, maxDests: int, user: string, day: string, sel: Selection)
    ensures Held(Fold(users, r, maxDests), user, day, sel)
            == Plus(Held(users, user, day, sel), Share(r, user, day, sel))
    ensures HeldTraffic(Fold(users, r, maxDests), user, day)
            == PlusTraffic(HeldTraffic(users, user, day), TrafficOf(Share(r, user, day, All)))
  {
    hide FormatDay, Part, FoldUser, UserSum, UserTraffic, KeyOfRecord, One;
    if Attributed(r) && r.username == user {
      UserFoldAdds(UserOf(users, user), r, maxDests, day, sel);
      PartOfAll(KeyOfRecord(r), One(r));
    } else {
      assert UserOf(Fold(users, r, maxDests), user) == UserOf(users, user);
    }
  }

  lemma PartOfAll(k: DestKey, c: Counters)
    ensures Part(All, k, c) == c
  {
  }

  lemma UserFoldAdds(u: UserAgg, r: Record, maxDests: int, day: string, sel: Selection)
    ensures UserSum(FoldUser(u, r, maxDests), day, sel)
            == Plus(UserSum(u, day, sel),
                    if FormatDay(r.unixMillis) == day then Part(sel, KeyOfRecord(r), One(r)) else ZERO)
    ensures UserTraffic(FoldUser(u, r, maxDests), day)
            == PlusTraffic(UserTraffic(u, day), if FormatDay(r.unixMillis) == day then TrafficOf(One(r)) else NO_TRAFFIC)
  {
    hide FormatDay, Sum, Bucket, Part;
    if FormatDay(r.unixMillis) == day {
      var d := DayOf(u, day);
      SumAdd(d.dests, Bucket(d, r, maxDests), One(r), sel);
      BucketKeepsSelection(d, r, maxDests, sel);
      NoDestinations(sel);
    }
  }

  lemma NoDestinations(sel: Selection)
    ensures Sum(map[], sel) == ZERO
  {
  }

  // ---- the live view ----

  function TodayAfter(today: map<string, Counters>, todayDay: string, day: string, r: Record): map<string, Counters> {
    var kept := if day != todayDay then today - {todayDay} else today;
    kept[day := Plus(if day in kept then kept[day] else ZERO, One(r))]
  }

  // The live view after the records rs, from a fresh start.
  function LiveAfter(rs: seq<Record>): (map<string, Counters>, string) {
    if rs == [] then (map[], "") else
      var r := rs[|rs| - 1];
      var before := LiveAfter(rs[..|rs| - 1]);
      (TodayAfter(before.0, before.1, FormatDay(r.unixMillis), r), FormatDay(r.unixMillis))
  }

  // The total of the longest run of records at the end of rs that all fall on the given day.
  function TrailingTotal(rs: seq<Record>, day: string): Counters {
    if rs == [] || FormatDay(rs[|rs| - 1].unixMillis) != day then ZERO else
      Plus(TrailingTotal(rs[..|rs| - 1], day), One(rs[|rs| - 1]))
  }

  // The live view holds one day only, that of the newest record, and exactly the records since the day
  // last changed.
  lemma {:induction false} LiveViewIsTrailing(rs: seq<Record>)
    requires rs != []
    ensures var day := FormatDay(rs[|rs| - 1].unixMillis);
      LiveAfter(rs) == (map[day := TrailingTotal(rs, day)], day)
    decreases |rs|
  {
    hide FormatDay;
    var before, day := rs[..|rs| - 1], FormatDay(rs[|rs| - 1].unixMillis);
    var was := LiveAfter(before);
    if before != [] {
      LiveViewIsTrailing(before);
      assert was.1 != day ==> TrailingTotal(before, day) == ZERO;
    }
    assert was.0 - {was.1} == map[];
    var kept := if day != was.1 then was.0 - {was.1} else was.0;
    var held := if day in kept then kept[day] else ZERO;
    assert forall k | k in kept :: k == day;
    assert held == TrailingTotal(before, day);
    assert kept[day := Plus(held, One(rs[|rs| - 1]))] == map[day := TrailingTotal(rs, day)];
  }

  datatype LiveSnapshot = LiveSnapshot(day: string, totals: Counters, ingested: nat, overflowed: nat, ringEnabled: bool)

  // ---- the object ----

  class Aggregator {
    const maxDests: int
    const ring: Ring.Ring?
    var users: Users
    var today: map<string, Counters>
    var todayDay: string
    var ingested: nat
    var overflowed: nat

    ghost function Footprint(): set<object> {
      if ring == null then {} else {ring, ring.buf}
    }

    ghost predicate Valid()
      reads this, Footprint()
    {
      this !in Footprint() && (ring != null ==> ring.Valid())
    }

    constructor (maxDestinationsPerUser: int, ringSize: int)
      ensures Valid() && fresh(Footprint())
      ensures maxDests == maxDestinationsPerUser && users == map[] && today == map[] && todayDay == ""
      ensures ingested == 0 && overflowed == 0
      ensures (ring != null) == (ringSize > 0)
      ensures ring != null ==> ring.buf.Length == ringSize && ring.Contents() == []
    {
      maxDests := maxDestinationsPerUser;
      users, today, todayDay, ingested, overflowed := map[], map[], "", 0, 0;
      if ringSize > 0 {
        ring := new Ring.Ring(ringSize);
      } else {
        ring := null;
      }
    }

    method Add(rec: Record)
      requires Valid()
      modifies this, Footprint()
      ensures Valid()
      ensures users == Fold(old(users), rec, maxDests)
      ensures overflowed == old(overflowed)
                + if Attributed(rec)
                     && Overflows(DayOf(UserOf(old(users), rec.username), FormatDay(rec.unixMillis)), rec, maxDests)
                  then 1 else 0
      ensures ingested == old(ingested) + 1
      ensures todayDay == FormatDay(rec.unixMillis)
      ensures today == TodayAfter(old(today), old(todayDay), FormatDay(rec.unixMillis), rec)
      ensures ring != null ==> ring.Contents() == Ring.LastOf(old(ring.Contents()) + [rec], ring.buf.Length)
    {
      hide FormatDay, FoldUser, TodayAfter;
      var day := FormatDay(rec.unixMillis);
      ingested := ingested + 1;
      AddToday(day, rec);
      if ring != null {
        ring.Add(rec);
      }
      if rec.username == "-" || rec.username == "" {
        return;
      }
      AddPending(day, rec);
    }

    method AddToday(day: string, rec: Record)
      modifies this`today, this`todayDay
      ensures todayDay == day
      ensures today == TodayAfter(old(today), old(todayDay), day, rec)
    {
      if day != todayDay {
        today := today - {todayDay};
        todayDay := day;
      }
      if day !in today {
        today := today[day := ZERO];
      }
      today := today[day := Plus(today[day], One(rec))];
    }

    method AddPending(day: string, rec: Record)
      requires Attributed(rec) && day == FormatDay(rec.unixMillis)
      modifies this`users, this`overflowed
      ensures users == Fold(old(users), rec, maxDests)
      ensures overflowed == old(overflowed)
                + if Overflows(DayOf(UserOf(old(users), rec.username), day), rec, maxDests) then 1 else 0
    {
      hide FormatDay;
      var u := UserOf(users, rec.username);
      var seen := u.lastSeen;
      if rec.unixMillis > seen {
        seen := rec.unixMillis;
      }
      var d := DayOf(u, day);
      var usage := Plus(d.usage, One(rec));
      var key := DestKey(rec.host, rec.port, rec.protocol);
      var d': DayAgg;
      if key in d.dests {
        d' := DayAgg(usage, d.dests[key := Plus(d.dests[key], One(rec))], d.tracked);
      } else if d.tracked < maxDests {
        d' := DayAgg(usage, d.dests[key := Plus(ZERO, One(rec))], d.tracked + 1);
      } else {
        var other := DestKey(OTHER_HOST, rec.port, rec.protocol);
        var c := if other in d.dests then d.dests[other] else ZERO;
        d' := DayAgg(usage, d.dests[other := Plus(c, One(rec))], d.tracked);
        overflowed := overflowed + 1;
      }
      users := users[rec.username := UserAgg(u.days[day := d'], seen)];
    }

    // TakePending swaps out everything accumulated since the last flush.
    method TakePending() returns (out: seq<PendingDelta>)
      modifies this`users
      ensures users == map[]
      ensures ListsAll(out, old(users))
    {
      hide ListsUser, UserTotals, ListsAll;
      out := [];
      TookNone(users);
      while users != map[]
        invariant users.Keys <= old(users).Keys
        invariant users == old(users) - (old(users).Keys - users.Keys)
        invariant ListsAll(out, old(users) - users.Keys)
        decreases |users|
      {
        assert users.Keys != {};
        var name := Pick(users.Keys);
        var p := TakeUser(name, users[name]);
        TookOne(out, p, old(users), users.Keys, name);
        out := out + [p];
        users := users - {name};
      }
      assert old(users) - {} == old(users);
    }

    method Snapshot() returns (s: LiveSnapshot)
      ensures s == LiveSnapshot(todayDay, if todayDay in today then today[todayDay] else ZERO,
                                ingested, overflowed, ring != null)
    {
      s := LiveSnapshot(todayDay, ZERO, ingested, overflowed, ring != null);
      if todayDay in today {
        s := s.(totals := today[todayDay]);
      }
    }

    method RecentConnections(limit: int, username: string) returns (out: seq<Record>)
      requires Valid()
      ensures out == if ring == null then [] else Ring.Newest(ring.Contents(), ring.size, AtLeastZero(limit), username)
    {
      if ring == null || limit <= 0 {
        if ring != null {
          Ring.NewestOfNothing(ring.Contents(), ring.size, 0, username);
        }
        return [];
      }
      out := ring.Recent(limit, username);
    }
  }

  lemma TookNone(users: Users)
    ensures ListsAll([], users - users.Keys)
  {
    assert users - users.Keys == map[];
  }

  lemma TookOne(ps: seq<PendingDelta>, p: PendingDelta, users: Users, left: set<string>, name: string)
    requires name in left && left <= users.Keys
    requires ListsAll(ps, users - left)
    requires ListsUser(p, name, users[name]) && UserTotals(p, users[name])
    ensures ListsAll(ps + [p], users - (left - {name}))
  {
    hide UserTotals, ListsUsage, ListsRows;
    var before, after, all := users - left, users - (left - {name}), ps + [p];
    assert after.Keys == before.Keys + {name};
    forall i | 0 <= i < |all|
      ensures var n := all[i].username;
        n in after && ListsUser(all[i], n, after[n]) && UserTotals(all[i], after[n])
    {
      if i < |ps| {
        assert ps[i].username in before;
      }
    }
    forall i, j | 0 <= i < j < |all| ensures all[i].username != all[j].username {
      if j == |ps| {
        assert ps[i].username in before;
      }
    }
  }
}
