// Runs of internal/analytics/aggregator.go: any interleaving of Add and TakePending.
module FlushWindows {

  import opened Store
  import opened Tailer
  import opened Wrappers
  import opened Counters
  import opened Aggregator

  datatype Event = Added(rec: Record) | Took(out: seq<PendingDelta>)

  function UsersAfter(events: seq<Event>, maxDests: int): Users {
    if events == [] then map[] else
      match events[|events| - 1]
      case Added(r) => Fold(UsersAfter(events[..|events| - 1], maxDests), r, maxDests)
      case Took(_) => map[]
  }

  // Every batch lists what was pending when it was taken, as TakePending ensures.
  ghost predicate WindowRun(events: seq<Event>, maxDests: int) {
    events == [] ||
    var before, last := events[..|events| - 1], events[|events| - 1];
    && WindowRun(before, maxDests)
    && (last.Took? ==> ListsAll(last.out, UsersAfter(before, maxDests)))
  }

  function RecordsOf(events: seq<Event>): seq<Record> {
    if events == [] then [] else
      RecordsOf(events[..|events| - 1])
      + match events[|events| - 1] { case Added(r) => [r] case Took(_) => [] }
  }

  function BatchesOf(events: seq<Event>): seq<PendingDelta> {
    if events == [] then [] else
      BatchesOf(events[..|events| - 1])
      + match events[|events| - 1] { case Added(_) => [] case Took(out) => out }
  }

  // The plain fold over all records: no cap, no schedule.
  function Total(rs: seq<Record>, user: string, day: string, sel: Selection): Counters {
    if rs == [] then ZERO else
      Plus(Total(rs[..|rs| - 1], user, day, sel), Share(rs[|rs| - 1], user, day, sel))
  }

  lemma TotalStep(rs: seq<Record>, r: Record, user: string, day: string, sel: Selection)
    ensures Total(rs + [r], user, day, sel) == Plus(Total(rs, user, day, sel), Share(r, user, day, sel))
  {
    hide Share;
    assert (rs + [r])[..|rs|] == rs;
  }

  // However flushes fall between records and whatever the cap, what was taken and what is pending add up
  // to the plain fold of the attributed records: for each user, day, port and protocol, and in all.
  lemma {:induction false} TakenPlusHeld(events: seq<Event>, maxDests: int, user: string, day: string, sel: Selection)
    requires WindowRun(events, maxDests)
    ensures var users := UsersAfter(events, maxDests);
      && Plus(Taken(BatchesOf(events), user, day, sel), Held(users, user, day, sel))
         == Total(RecordsOf(events), user, day, sel)
      && PlusTraffic(TakenTraffic(BatchesOf(events), user, day), HeldTraffic(users, user, day))
         == TrafficOf(Total(RecordsOf(events), user, day, All))
    decreases |events|
  {
    hide Fold, ListsAll, Held, HeldTraffic, Taken, TakenTraffic, Share, Total;
    if events == [] {
      EmptyTotals(user, day, sel);
    } else {
      var before := events[..|events| - 1];
      var users := UsersAfter(before, maxDests);
      TakenPlusHeld(before, maxDests, user, day, sel);
      match events[|events| - 1]
      case Added(r) =>
        assert BatchesOf(events) == BatchesOf(before);
        FoldAdds(users, r, maxDests, user, day, sel);
        TotalStep(RecordsOf(before), r, user, day, sel);
        TotalStep(RecordsOf(before), r, user, day, All);
      case Took(out) =>
        assert RecordsOf(events) == RecordsOf(before);
        TakesWhatWasHeld(out, users, user, day, sel);
        TakenConcat(BatchesOf(before), out, user, day, sel);
        TakenTrafficConcat(BatchesOf(before), out, user, day);
        EmptyTotals(user, day, sel);
    }
  }

  lemma EmptyTotals(user: string, day: string, sel: Selection)
    ensures Held(map[], user, day, sel) == ZERO && HeldTraffic(map[], user, day) == NO_TRAFFIC
    ensures Taken([], user, day, sel) == ZERO && TakenTraffic([], user, day) == NO_TRAFFIC
    ensures Total([], user, day, sel) == ZERO && Total([], user, day, All) == ZERO
  {
    NoDays(day, sel);
  }

  // Two runs over the same records that end flushed persist the same totals, whatever their caps and
  // wherever their flushes fell.
  lemma ScheduleAndCapDoNotMatter(a: seq<Event>, capA: int, b: seq<Event>, capB: int, user: string, day: string, sel: Selection)
    requires WindowRun(a, capA) && WindowRun(b, capB) && RecordsOf(a) == RecordsOf(b)
    requires a != [] && a[|a| - 1].Took? && b != [] && b[|b| - 1].Took?
    ensures Taken(BatchesOf(a), user, day, sel) == Taken(BatchesOf(b), user, day, sel)
    ensures TakenTraffic(BatchesOf(a), user, day) == TakenTraffic(BatchesOf(b), user, day)
  {
    hide Held, HeldTraffic, Taken, TakenTraffic, Total, WindowRun, BatchesOf, RecordsOf;
    TakenPlusHeld(a, capA, user, day, sel);
    TakenPlusHeld(b, capB, user, day, sel);
    EmptyTotals(user, day, sel);
  }

  // ---- the totals are sums over the records ----

  // The record is the user's, of that day, and on the selected port and protocol.
  predicate CountsFor(r: Record, user: string, day: string, sel: Selection) {
    && r.username == user && user != "" && user != "-"
    && FormatDay(r.unixMillis) == day
    && (sel.All? || (r.port == sel.port && r.protocol == sel.protocol))
  }

  function SumOf(rs: seq<Record>, user: string, day: string, sel: Selection, amount: Record -> int): int {
    if rs == [] then 0 else
      SumOf(rs[..|rs| - 1], user, day, sel, amount)
      + if CountsFor(rs[|rs| - 1], user, day, sel) then amount(rs[|rs| - 1]) else 0
  }

  function OneEach(r: Record): int { 1 }
  function OneIfBlocked(r: Record): int { if r.blocked then 1 else 0 }
  function BytesIn(r: Record): int { r.bytesIn }
  function BytesOut(r: Record): int { r.bytesOut }

  // The plain fold counts the records, those blocked among them, and the bytes each way.
  lemma {:induction false} TotalsAreSums(rs: seq<Record>, user: string, day: string, sel: Selection)
    ensures Total(rs, user, day, sel)
            == Counters(SumOf(rs, user, day, sel, OneEach), SumOf(rs, user, day, sel, OneIfBlocked),
                        SumOf(rs, user, day, sel, BytesIn), SumOf(rs, user, day, sel, BytesOut))
    decreases |rs|
  {
    hide FormatDay;
    if rs != [] {
      TotalsAreSums(rs[..|rs| - 1], user, day, sel);
    }
  }

  // ---- usage against destinations ----

  // The usage counters are the sum of the destinations.
  ghost predicate GoodDay(d: DayAgg) {
    d.usage == Sum(d.dests, All)
  }

  ghost predicate GoodUsers(users: Users) {
    forall name, day | name in users && day in users[name].days :: GoodDay(users[name].days[day])
  }

  lemma FoldKeepsGoodDay(d: DayAgg, r: Record, maxDests: int)
    requires GoodDay(d)
    ensures GoodDay(FoldDay(d, r, maxDests))
  {
    hide Sum;
    SumAdd(d.dests, Bucket(d, r, maxDests), One(r), All);
  }

  lemma FoldKeepsGood(users: Users, r: Record, maxDests: int)
    requires GoodUsers(users)
    ensures GoodUsers(Fold(users, r, maxDests))
  {
    hide FoldDay, FormatDay, Sum;
    if Attributed(r) {
      var u, day := UserOf(users, r.username), FormatDay(r.unixMillis);
      NoDestinations(All);
      assert r.username in users ==> u == users[r.username];
      assert GoodDay(DayOf(u, day));
      FoldKeepsGoodDay(DayOf(u, day), r, maxDests);
    }
  }

  lemma {:induction false} RunsKeepGood(events: seq<Event>, maxDests: int)
    ensures GoodUsers(UsersAfter(events, maxDests))
    decreases |events|
  {
    hide GoodUsers, Fold;
    if events == [] || events[|events| - 1].Took? {
      NoUsersAreGood();
    } else {
      RunsKeepGood(events[..|events| - 1], maxDests);
      FoldKeepsGood(UsersAfter(events[..|events| - 1], maxDests), events[|events| - 1].rec, maxDests);
    }
  }

  lemma NoUsersAreGood()
    ensures GoodUsers(map[])
  {
  }

  // The destination rows of a batch add up to its usage row, day by day.
  ghost predicate Balanced(p: PendingDelta) {
    forall day :: UsageTotal(p.usage, day) == TrafficOf(DestinationTotal(p.dests, day, All))
  }

  lemma UserBalances(p: PendingDelta, users: Users, name: string, day: string)
    requires GoodUsers(users) && name in users && UserTotals(p, users[name])
    ensures UsageTotal(p.usage, day) == TrafficOf(DestinationTotal(p.dests, day, All))
  {
    hide UserTotals, Sum;
    var u := users[name];
    LastTotals(p, u, day, All);
    if day in u.days {
      assert GoodDay(users[name].days[day]);
    }
  }

  // ---- which destinations a window keeps ----

  predicate IsFor(r: Record, user: string, day: string) {
    Attributed(r) && r.username == user && FormatDay(r.unixMillis) == day
  }

  // The first n distinct destinations of a user's records of a day.
  function FirstKeys(rs: seq<Record>, user: string, day: string, n: nat): (ks: set<DestKey>)
    ensures |ks| <= n
  {
    if rs == [] then {} else
      var before, r := FirstKeys(rs[..|rs| - 1], user, day, n), rs[|rs| - 1];
      if IsFor(r, user, day) && |before| < n then before + {KeyOfRecord(r)} else before
  }

  // The overflow buckets of the others: one for each port and protocol.
  function OverflowKeys(rs: seq<Record>, user: string, day: string, n: nat): set<DestKey> {
    if rs == [] then {} else
      var before, r := OverflowKeys(rs[..|rs| - 1], user, day, n), rs[|rs| - 1];
      if IsFor(r, user, day) && KeyOfRecord(r) !in FirstKeys(rs, user, day, n)
      then before + {KeyOfRecord(r).(host := OTHER_HOST)} else before
  }

  // The records since the last flush.
  function WindowOf(events: seq<Event>): seq<Record> {
    if events == [] then [] else
      match events[|events| - 1]
      case Added(r) => WindowOf(events[..|events| - 1]) + [r]
      case Took(_) => []
  }

  // A day holds these first destinations and overflow buckets.
  predicate Holds(d: DayAgg, first: set<DestKey>, over: set<DestKey>, maxDests: int) {
    && d.dests.Keys == first + over
    && d.tracked == |first| <= AtLeastZero(maxDests)
    && (forall k | k in over :: k.host == OTHER_HOST)
    && (over != {} ==> |first| == AtLeastZero(maxDests))
  }

  predicate KeepsFirst(d: DayAgg, rs: seq<Record>, user: string, day: string, maxDests: int) {
    Holds(d, FirstKeys(rs, user, day, AtLeastZero(maxDests)), OverflowKeys(rs, user, day, AtLeastZero(maxDests)), maxDests)
  }

  lemma FoldKeepsFirst(d: DayAgg, rs: seq<Record>, r: Record, user: string, day: string, maxDests: int)
    requires KeepsFirst(d, rs, user, day, maxDests)
    ensures KeepsFirst(if IsFor(r, user, day) then FoldDay(d, r, maxDests) else d, rs + [r], user, day, maxDests)
  {
    hide IsFor, Holds, FoldDay, FirstKeys, OverflowKeys, KeyOfRecord;
    var n := AtLeastZero(maxDests);
    FirstStep(rs, r, user, day, n);
    OverflowStep(rs, r, user, day, n);
    if IsFor(r, user, day) {
      FoldKeepsKeys(d, r, FirstKeys(rs, user, day, n), OverflowKeys(rs, user, day, n), maxDests);
    }
  }

  lemma FirstStep(rs: seq<Record>, r: Record, user: string, day: string, n: nat)
    ensures var before := FirstKeys(rs, user, day, n);
      FirstKeys(rs + [r], user, day, n)
      == if IsFor(r, user, day) && |before| < n then before + {KeyOfRecord(r)} else before
  {
    hide IsFor;
    assert (rs + [r])[..|rs|] == rs;
  }

  lemma OverflowStep(rs: seq<Record>, r: Record, user: string, day: string, n: nat)
    ensures var before := OverflowKeys(rs, user, day, n);
      OverflowKeys(rs + [r], user, day, n)
      == if IsFor(r, user, day) && KeyOfRecord(r) !in FirstKeys(rs + [r], user, day, n)
         then before + {KeyOfRecord(r).(host := OTHER_HOST)} else before
  {
    hide IsFor, FirstKeys;
    assert (rs + [r])[..|rs|] == rs;
  }

  lemma FoldKeepsKeys(d: DayAgg, r: Record, first: set<DestKey>, over: set<DestKey>, maxDests: int)
    requires Holds(d, first, over, maxDests)
    ensures var k := KeyOfRecord(r);
      var first' := if |first| < AtLeastZero(maxDests) then first + {k} else first;
      Holds(FoldDay(d, r, maxDests), first', if k !in first' then over + {k.(host := OTHER_HOST)} else over, maxDests)
  {
    hide FoldDay, KeyOfRecord;
    var k, d' := KeyOfRecord(r), FoldDay(d, r, maxDests);
    FoldDayKeys(d, r, maxDests);
    if k in first {
      assert first + {k} == first;
    } else if k in over {
      KeepsOverflow(d, d', first, over, k, maxDests);
    } else if |first| < AtLeastZero(maxDests) {
      KeepsNewFirst(d, d', first, over, k, maxDests);
    } else {
      KeepsNewOverflow(d, d', first, over, k, maxDests);
    }
  }

  lemma KeepsOverflow(d: DayAgg, d': DayAgg, first: set<DestKey>, over: set<DestKey>, k: DestKey, maxDests: int)
    requires Holds(d, first, over, maxDests) && k in over && d'.dests.Keys == d.dests.Keys && d'.tracked == d.tracked
    ensures Holds(d', first, over + {k.(host := OTHER_HOST)}, maxDests)
  {
    assert k.(host := OTHER_HOST) == k && over + {k} == over;
  }

  lemma KeepsNewFirst(d: DayAgg, d': DayAgg, first: set<DestKey>, over: set<DestKey>, k: DestKey, maxDests: int)
    requires Holds(d, first, over, maxDests) && k !in first + over && |first| < AtLeastZero(maxDests)
    requires d'.dests.Keys == d.dests.Keys + {k} && d'.tracked == d.tracked + 1
    ensures Holds(d', first + {k}, over, maxDests)
  {
    assert over == {};
  }

  lemma KeepsNewOverflow(d: DayAgg, d': DayAgg, first: set<DestKey>, over: set<DestKey>, k: DestKey, maxDests: int)
    requires Holds(d, first, over, maxDests) && |first| == AtLeastZero(maxDests)
    requires d'.dests.Keys == d.dests.Keys + {k.(host := OTHER_HOST)} && d'.tracked == d.tracked
    ensures Holds(d', first, over + {k.(host := OTHER_HOST)}, maxDests)
  {
  }

  lemma FoldDayKeys(d: DayAgg, r: Record, maxDests: int)
    ensures var k, d' := KeyOfRecord(r), FoldDay(d, r, maxDests);
      if k in d.dests then d'.dests.Keys == d.dests.Keys && d'.tracked == d.tracked
      else if d.tracked < maxDests then d'.dests.Keys == d.dests.Keys + {k} && d'.tracked == d.tracked + 1
      else d'.dests.Keys == d.dests.Keys + {k.(host := OTHER_HOST)} && d'.tracked == d.tracked
  {
    hide Plus, One;
  }

  // At any point of a run a user's day holds the first destinations of the window, up to the cap, and the
  // overflow buckets of the rest.
  lemma {:induction false} WindowKeepsFirst(events: seq<Event>, maxDests: int, user: string, day: string)
    ensures KeepsFirst(DayOf(UserOf(UsersAfter(events, maxDests), user), day), WindowOf(events), user, day, maxDests)
    decreases |events|
  {
    hide Fold, KeepsFirst;
    if events == [] || events[|events| - 1].Took? {
      EmptyKeepsFirst(user, day, maxDests);
    } else {
      var before, r := events[..|events| - 1], events[|events| - 1].rec;
      var users := UsersAfter(before, maxDests);
      WindowKeepsFirst(before, maxDests, user, day);
      FoldKeepsFirst(DayOf(UserOf(users, user), day), WindowOf(before), r, user, day, maxDests);
      FoldTouchesOneDay(users, r, maxDests, user, day);
    }
  }

  lemma EmptyKeepsFirst(user: string, day: string, maxDests: int)
    ensures KeepsFirst(DayOf(UserOf(map[], user), day), [], user, day, maxDests)
  {
  }

  lemma FoldTouchesOneDay(users: Users, r: Record, maxDests: int, user: string, day: string)
    ensures var d := DayOf(UserOf(users, user), day);
      DayOf(UserOf(Fold(users, r, maxDests), user), day) == if IsFor(r, user, day) then FoldDay(d, r, maxDests) else d
  {
    hide FoldDay, FormatDay;
  }

  // ---- the rows of a batch ----

  // The distinct destinations a user's delta names for a day.
  function Rows(p: PendingDelta, day: string): set<DestKey> {
    set i | 0 <= i < |p.dests| && p.dests[i].day == day :: KeyOf(p.dests[i])
  }

  function RowsOf(out: seq<PendingDelta>, user: string, day: string): set<DestKey> {
    set i, k | 0 <= i < |out| && out[i].username == user && k in Rows(out[i], day) :: k
  }

  function Ordinary(ks: set<DestKey>): set<DestKey> {
    set k | k in ks && k.host != OTHER_HOST
  }

  lemma RowsListed(p: PendingDelta, u: UserAgg, day: string)
    requires ListsRows(p.dests, u)
    ensures Rows(p, day) == DayOf(u, day).dests.Keys
  {
    forall k | k in DayOf(u, day).dests ensures k in Rows(p, day) {
      var row := DestinationOf(day, k, u.days[day].dests[k], u.lastSeen);
      assert row in p.dests;
      var i :| 0 <= i < |p.dests| && p.dests[i] == row;
      assert KeyOf(p.dests[i]) == k;
    }
    forall k | k in Rows(p, day) ensures k in DayOf(u, day).dests {
      var i :| 0 <= i < |p.dests| && p.dests[i].day == day && KeyOf(p.dests[i]) == k;
      assert p.dests[i].day in u.days;
    }
  }

  lemma RowsTaken(out: seq<PendingDelta>, users: Users, user: string, day: string)
    requires ListsAll(out, users)
    ensures RowsOf(out, user, day) == DayOf(UserOf(users, user), day).dests.Keys
  {
    hide UserTotals, Rows, ListsRows, ListsUsage, DayOf;
    if user in users {
      ListsEveryUser(out, users, user);
      var i :| 0 <= i < |out| && out[i].username == user;
      assert forall j | 0 <= j < |out| && j != i :: out[j].username != user;
      assert RowsOf(out, user, day) == Rows(out[i], day);
      RowsListed(out[i], users[user], day);
    } else {
      assert RowsOf(out, user, day) == {};
      NoRowsWithoutUser(day);
    }
  }

  lemma NoRowsWithoutUser(day: string)
    ensures DayOf(UserAgg(map[], 0), day).dests.Keys == {}
  {
  }

  // As many entries as users, no user twice: every user has one.
  lemma {:induction false} ListsEveryUser(out: seq<PendingDelta>, users: Users, user: string)
    requires ListsAll(out, users) && user in users
    ensures exists i :: 0 <= i < |out| && out[i].username == user
    decreases |out|
  {
    hide ListsUser, UserTotals;
    if out == [] {
      assert false;
    } else if out[|out| - 1].username != user {
      hide ListsAll;
      ListsRest(out, users);
      ListsEveryUser(out[..|out| - 1], users - {out[|out| - 1].username}, user);
      var i :| 0 <= i < |out| - 1 && out[..|out| - 1][i].username == user;
      assert out[i].username == user;
    }
  }

  // A flush writes for a user and day exactly the first destinations of its window, up to the cap, and the
  // overflow rows of the rest: at most the cap plus the ports and protocols that overflowed.
  lemma RowsOfWindow(before: seq<Event>, maxDests: int, out: seq<PendingDelta>, user: string, day: string)
    requires ListsAll(out, UsersAfter(before, maxDests))
    ensures var w, n := WindowOf(before), AtLeastZero(maxDests);
      && RowsOf(out, user, day) == FirstKeys(w, user, day, n) + OverflowKeys(w, user, day, n)
      && (forall k | k in OverflowKeys(w, user, day, n) :: k.host == OTHER_HOST)
      && |RowsOf(out, user, day)| <= n + |OverflowKeys(w, user, day, n)|
  {
    hide ListsAll, RowsOf, FirstKeys, OverflowKeys;
    var n := AtLeastZero(maxDests);
    WindowKeepsFirst(before, maxDests, user, day);
    RowsTaken(out, UsersAfter(before, maxDests), user, day);
    UnionSize(FirstKeys(WindowOf(before), user, day, n), OverflowKeys(WindowOf(before), user, day, n));
  }

  lemma UnionSize<T>(a: set<T>, b: set<T>)
    ensures |a + b| <= |a| + |b|
  {
    assert a + b == a + (b - a);
    SubsetSize(b - a, b);
  }

  // ---- what a kept destination counts ----

  predicate GoesTo(r: Record, user: string, day: string, k: DestKey) {
    IsFor(r, user, day) && r.host == k.host && r.port == k.port && r.protocol == k.protocol
  }

  // The records of a destination: how many, how many blocked, bytes in and bytes out.
  function DestinationSum(rs: seq<Record>, user: string, day: string, k: DestKey): Counters {
    if rs == [] then ZERO else
      var before, r := DestinationSum(rs[..|rs| - 1], user, day, k), rs[|rs| - 1];
      if !GoesTo(r, user, day, k) then before else
        Counters(before.requests + 1, before.blocked + (if r.blocked then 1 else 0),
                 before.bytesIn + r.bytesIn, before.bytesOut + r.bytesOut)
  }

  // Below the cap nothing has been turned away.
  lemma {:induction false} NoneTurnedAway(rs: seq<Record>, user: string, day: string, n: nat, k: DestKey)
    requires |FirstKeys(rs, user, day, n)| < n && k !in FirstKeys(rs, user, day, n)
    ensures DestinationSum(rs, user, day, k) == ZERO
    decreases |rs|
  {
    hide IsFor;
    if rs != [] {
      FirstKeysGrow(rs, user, day, n);
      NoneTurnedAway(rs[..|rs| - 1], user, day, n, k);
    }
  }

  lemma FirstKeysGrow(rs: seq<Record>, user: string, day: string, n: nat)
    requires rs != []
    ensures FirstKeys(rs[..|rs| - 1], user, day, n) <= FirstKeys(rs, user, day, n)
    ensures |FirstKeys(rs[..|rs| - 1], user, day, n)| <= |FirstKeys(rs, user, day, n)|
  {
    hide IsFor, KeyOfRecord;
    SubsetSize(FirstKeys(rs[..|rs| - 1], user, day, n), FirstKeys(rs, user, day, n));
  }

  function CountedAt(d: DayAgg, k: DestKey): Counters {
    if k in d.dests then d.dests[k] else ZERO
  }

  lemma FoldCountsKey(d: DayAgg, rs: seq<Record>, r: Record, user: string, day: string, maxDests: int, k: DestKey)
    requires KeepsFirst(d, rs, user, day, maxDests) && k.host != OTHER_HOST && IsFor(r, user, day)
    requires k in d.dests ==> d.dests[k] == DestinationSum(rs, user, day, k)
    ensures var d' := FoldDay(d, r, maxDests);
      k in d'.dests ==> d'.dests[k] == DestinationSum(rs + [r], user, day, k)
  {
    hide IsFor, FirstKeys, OverflowKeys;
    assert (rs + [r])[..|rs|] == rs;
    var n := AtLeastZero(maxDests);
    if k !in d.dests && |FirstKeys(rs, user, day, n)| < n {
      NoneTurnedAway(rs, user, day, n, k);
    }
  }

  // A destination with a row of its own counts every record of the window that went to it, by host, port and
  // protocol, and no other.
  lemma {:induction false} KeptDestinationsAreExact(events: seq<Event>, maxDests: int, user: string, day: string, k: DestKey)
    requires k.host != OTHER_HOST
    ensures var d := DayOf(UserOf(UsersAfter(events, maxDests), user), day);
      k in d.dests ==> d.dests[k] == DestinationSum(WindowOf(events), user, day, k)
    decreases |events|
  {
    hide Fold, KeepsFirst, FoldDay, IsFor;
    if events != [] && events[|events| - 1].Added? {
      var before, r := events[..|events| - 1], events[|events| - 1].rec;
      var users, rs := UsersAfter(before, maxDests), WindowOf(before);
      KeptDestinationsAreExact(before, maxDests, user, day, k);
      WindowKeepsFirst(before, maxDests, user, day);
      FoldTouchesOneDay(users, r, maxDests, user, day);
      if IsFor(r, user, day) {
        FoldCountsKey(DayOf(UserOf(users, user), day), rs, r, user, day, maxDests, k);
      } else {
        assert (rs + [r])[..|rs|] == rs;
      }
    }
  }

  // ---- when a user was last seen ----

  // The newest time among the user's records of a window.
  function Newest(rs: seq<Record>, user: string): int {
    if rs == [] then 0 else
      var before, r := Newest(rs[..|rs| - 1], user), rs[|rs| - 1];
      if Attributed(r) && r.username == user && r.unixMillis > before then r.unixMillis else before
  }

  lemma {:induction false} LastSeenIsNewest(events: seq<Event>, maxDests: int, user: string)
    ensures UserOf(UsersAfter(events, maxDests), user).lastSeen == Newest(WindowOf(events), user)
    ensures forall i | 0 <= i < |WindowOf(events)| && Attributed(WindowOf(events)[i]) && WindowOf(events)[i].username == user ::
              WindowOf(events)[i].unixMillis <= Newest(WindowOf(events), user)
    decreases |events|
  {
    hide FormatDay, FoldDay;
    if events != [] && events[|events| - 1].Added? {
      var before, r := events[..|events| - 1], events[|events| - 1].rec;
      LastSeenIsNewest(before, maxDests, user);
      assert (WindowOf(before) + [r])[..|WindowOf(before)|] == WindowOf(before);
    }
  }

  // Every row of a batch carries the newest time of its user's records in the window, and the month of its day.
  lemma RowsAreDated(before: seq<Event>, maxDests: int, out: seq<PendingDelta>, p: PendingDelta)
    requires WindowRun(before + [Took(out)], maxDests) && p in out
    ensures var newest := Newest(WindowOf(before), p.username);
      && (forall i | 0 <= i < |p.usage| :: p.usage[i].lastSeenUnix == newest && p.usage[i].month == MonthOf(p.usage[i].day)
                                           && p.usage[i].username == p.username)
      && (forall i | 0 <= i < |p.dests| :: p.dests[i].lastSeen == newest)
  {
    hide UserTotals, MonthOf;
    var events := before + [Took(out)];
    assert events[..|before|] == before && events[|before|] == Took(out);
    LastSeenIsNewest(before, maxDests, p.username);
    var i :| 0 <= i < |out| && out[i] == p;
    assert ListsUser(p, p.username, UsersAfter(before, maxDests)[p.username]);
  }

  // Every delta of a batch taken in any run balances.
  lemma BatchesBalance(before: seq<Event>, maxDests: int, out: seq<PendingDelta>, p: PendingDelta)
    requires ListsAll(out, UsersAfter(before, maxDests)) && p in out
    ensures Balanced(p)
  {
    hide ListsUser, UserTotals, GoodUsers;
    var users := UsersAfter(before, maxDests);
    RunsKeepGood(before, maxDests);
    assert p.username in users && UserTotals(p, users[p.username]);
    forall day ensures UsageTotal(p.usage, day) == TrafficOf(DestinationTotal(p.dests, day, All)) {
      UserBalances(p, users, p.username, day);
    }
  }

  // ---- the cap over several windows ----

  // The windows a run has flushed.
  function Windows(events: seq<Event>): seq<seq<Record>> {
    if events == [] then [] else
      var before := events[..|events| - 1];
      Windows(before) + if events[|events| - 1].Took? then [WindowOf(before)] else []
  }

  // The distinct destination rows a whole run writes for a user and day.
  function RowsWritten(events: seq<Event>, user: string, day: string): set<DestKey> {
    if events == [] then {} else
      RowsWritten(events[..|events| - 1], user, day)
      + match events[|events| - 1] { case Added(_) => {} case Took(out) => RowsOf(out, user, day) }
  }

  // The first destinations of each window.
  function FirstOfEach(ws: seq<seq<Record>>, user: string, day: string, n: nat): set<DestKey> {
    if ws == [] then {} else
      FirstOfEach(ws[..|ws| - 1], user, day, n) + FirstKeys(ws[|ws| - 1], user, day, n)
  }

  // Besides overflow rows, a run writes for a user and day exactly the first destinations of each of its
  // windows, up to the cap: so the day stays within the cap if and only if those do.
  lemma {:induction false} RowsPerDay(events: seq<Event>, maxDests: int, user: string, day: string)
    requires WindowRun(events, maxDests)
    ensures var n := AtLeastZero(maxDests);
      && Ordinary(RowsWritten(events, user, day)) == Ordinary(FirstOfEach(Windows(events), user, day, n))
      && |Ordinary(RowsWritten(events, user, day))| <= |Windows(events)| * n
    decreases |events|
  {
    hide ListsAll, RowsOf, FirstKeys, OverflowKeys, WindowOf;
    var n := AtLeastZero(maxDests);
    if events != [] {
      var before, last := events[..|events| - 1], events[|events| - 1];
      RowsPerDay(before, maxDests, user, day);
      if last.Took? {
        var rows := RowsOf(last.out, user, day);
        var ws, w := Windows(before), WindowOf(before);
        RowsOfWindow(before, maxDests, last.out, user, day);
        assert (ws + [w])[..|ws|] == ws;
        OrdinaryUnion(RowsWritten(before, user, day), rows);
        OrdinaryUnion(FirstOfEach(ws, user, day, n), FirstKeys(w, user, day, n));
        OrdinaryUnion(FirstKeys(w, user, day, n), OverflowKeys(w, user, day, n));
        SubsetSize(Ordinary(FirstKeys(w, user, day, n)), FirstKeys(w, user, day, n));
        UnionSize(Ordinary(RowsWritten(before, user, day)), Ordinary(rows));
        OneMore(|ws|, n);
      } else {
        assert RowsWritten(events, user, day) == RowsWritten(before, user, day);
        assert Windows(events) == Windows(before);
      }
    }
  }

  lemma OrdinaryUnion(a: set<DestKey>, b: set<DestKey>)
    ensures Ordinary(a + b) == Ordinary(a) + Ordinary(b)
    ensures (forall k | k in b :: k.host == OTHER_HOST) ==> Ordinary(b) == {}
  {
  }

  lemma OneMore(n: nat, c: nat)
    ensures (n + 1) * c == n * c + c
  {
  }

  // ---- which days stay within the cap however they are flushed ----

  // All distinct destinations of a user's records of a day.
  function AllKeys(rs: seq<Record>, user: string, day: string): set<DestKey> {
    if rs == [] then {} else
      AllKeys(rs[..|rs| - 1], user, day) + if IsFor(rs[|rs| - 1], user, day) then {KeyOfRecord(rs[|rs| - 1])} else {}
  }

  function Flat(ws: seq<seq<Record>>): seq<Record> {
    if ws == [] then [] else Flat(ws[..|ws| - 1]) + ws[|ws| - 1]
  }

  // A flush after every record.
  function Singles(rs: seq<Record>): seq<seq<Record>> {
    if rs == [] then [] else Singles(rs[..|rs| - 1]) + [[rs[|rs| - 1]]]
  }

  // However the flushes fall, the run writes at most the cap's worth of ordinary rows for the user and day.
  ghost predicate AlwaysWithinCap(rs: seq<Record>, user: string, day: string, maxDests: int) {
    forall events | WindowRun(events, maxDests) && RecordsOf(events) == rs ::
      |Ordinary(RowsWritten(events, user, day))| <= AtLeastZero(maxDests)
  }

  // The database holds at most the cap's worth of ordinary rows for a user and day, whenever the flushes
  // fall, if and only if the day's records name no more destinations than that, or the cap is not positive.
  lemma DayCapExactlyWhen(rs: seq<Record>, user: string, day: string, maxDests: int)
    ensures AlwaysWithinCap(rs, user, day, maxDests)
            <==> maxDests <= 0 || |Ordinary(AllKeys(rs, user, day))| <= maxDests
  {
    hide FirstOfEach, AllKeys, Flat, Singles, Ordinary, RowsWritten, WindowRun, RecordsOf, Windows, WindowOf;
    var n := AtLeastZero(maxDests);
    if maxDests <= 0 || |Ordinary(AllKeys(rs, user, day))| <= maxDests {
      forall events | WindowRun(events, maxDests) && RecordsOf(events) == rs
        ensures |Ordinary(RowsWritten(events, user, day))| <= n
      {
        RowsPerDay(events, maxDests, user, day);
        FirstAmongAll(Windows(events), user, day, n);
        WindowsSplit(events);
        AllKeysConcat(Flat(Windows(events)), WindowOf(events), user, day);
        OrdinarySubset(FirstOfEach(Windows(events), user, day, n), AllKeys(rs, user, day));
      }
    }
    if maxDests > 0 && AlwaysWithinCap(rs, user, day, maxDests) {
      var events := FlushEach(rs, maxDests);
      RowsPerDay(events, maxDests, user, day);
      FirstOfSingles(rs, user, day, n);
    }
  }

  lemma {:induction false} WindowsSplit(events: seq<Event>)
    ensures Flat(Windows(events)) + WindowOf(events) == RecordsOf(events)
    decreases |events|
  {
    if events != [] {
      var before := events[..|events| - 1];
      WindowsSplit(before);
      if events[|events| - 1].Took? {
        var ws := Windows(events);
        assert ws[..|ws| - 1] == Windows(before) && ws[|ws| - 1] == WindowOf(before);
      } else {
        assert Windows(events) == Windows(before);
      }
    }
  }

  // A run that flushes after every record; there always is one.
  lemma {:induction false} FlushEach(rs: seq<Record>, maxDests: int) returns (events: seq<Event>)
    ensures WindowRun(events, maxDests) && RecordsOf(events) == rs
    ensures Windows(events) == Singles(rs) && UsersAfter(events, maxDests) == map[]
    ensures WindowOf(events) == []
    decreases |rs|
  {
    hide ListsAll, Fold;
    if rs == [] {
      events := [];
    } else {
      var r := rs[|rs| - 1];
      var before := FlushEach(rs[..|rs| - 1], maxDests);
      var added := before + [Added(r)];
      assert added[..|before|] == before;
      assert Windows(added) == Windows(before) && WindowOf(added) == [] + [r] == [r];
      var out := SomeListing(UsersAfter(added, maxDests));
      events := added + [Took(out)];
      assert events[..|added|] == added;
    }
  }

  // Every table of users can be listed.
  lemma SomeListing(users: Users) returns (out: seq<PendingDelta>)
    ensures ListsAll(out, users)
  {
    hide ListsAll, ListsUser, UserTotals;
    out := [];
    var left := users.Keys;
    TookNone(users);
    while left != {}
      invariant left <= users.Keys && ListsAll(out, users - left)
      decreases |left|
    {
      var name :| name in left;
      var p := SomeUserListing(name, users[name]);
      TookOne(out, p, users, left, name);
      out := out + [p];
      left := left - {name};
    }
    assert users - {} == users;
  }

  lemma SomeUserListing(name: string, u: UserAgg) returns (p: PendingDelta)
    ensures ListsUser(p, name, u) && UserTotals(p, u)
  {
    hide ListsUser, UserTotals, ListsDay, DayTotals, UsageOf;
    p := PendingDelta(name, [], [], 0);
    var left := u.days.Keys;
    NothingOfUser(name, u);
    while left != {}
      invariant left <= u.days.Keys
      invariant ListsUser(p, name, u.(days := u.days - left)) && UserTotals(p, u.(days := u.days - left))
      decreases |left|
    {
      var day :| day in left;
      var ds := SomeDayListing(day, u.days[day].dests, u.lastSeen);
      var next := PendingDelta(name, p.usage + [UsageOf(name, day, u)], p.dests + ds,
                               p.records + u.days[day].usage.requests);
      ListedDay(p, next, name, u, left, day, ds);
      p := next;
      left := left - {day};
    }
    assert u.days - {} == u.days;
    assert u.(days := u.days - {}) == u;
  }

  lemma SomeDayListing(day: string, m: map<DestKey, Counters>, lastSeen: int) returns (ds: seq<DestinationDelta>)
    ensures ListsDay(ds, day, m, lastSeen) && DayTotals(ds, day, m)
  {
    hide ListsDay, DayTotals;
    ds := [];
    var left := m.Keys;
    NothingOfDay(day, m, lastSeen);
    while left != {}
      invariant left <= m.Keys && ListsDay(ds, day, m - left, lastSeen) && DayTotals(ds, day, m - left)
      decreases |left|
    {
      var k :| k in left;
      ListedOne(ds, day, m, left, k, lastSeen);
      ds := ds + [DestinationOf(day, k, m[k], lastSeen)];
      left := left - {k};
    }
    assert m - {} == m;
  }

  lemma OrdinarySubset(a: set<DestKey>, b: set<DestKey>)
    ensures a <= b ==> |Ordinary(a)| <= |Ordinary(b)|
    ensures a == {} ==> |Ordinary(a)| == 0
  {
    if a <= b {
      SubsetSize(Ordinary(a), Ordinary(b));
    }
    if a == {} {
      assert Ordinary(a) == {};
    }
  }

  lemma {:induction false} FirstAmongAll(ws: seq<seq<Record>>, user: string, day: string, n: nat)
    ensures FirstOfEach(ws, user, day, n) <= AllKeys(Flat(ws), user, day)
    ensures n == 0 ==> FirstOfEach(ws, user, day, n) == {}
    decreases |ws|
  {
    hide FirstKeys, AllKeys;
    if ws != [] {
      var before, w := ws[..|ws| - 1], ws[|ws| - 1];
      FirstAmongAll(before, user, day, n);
      FirstWithin(w, user, day, n);
      AllKeysConcat(Flat(before), w, user, day);
      assert n == 0 ==> FirstKeys(w, user, day, n) == {};
    }
  }

  lemma {:induction false} FirstWithin(rs: seq<Record>, user: string, day: string, n: nat)
    ensures FirstKeys(rs, user, day, n) <= AllKeys(rs, user, day)
    decreases |rs|
  {
    hide IsFor;
    if rs != [] {
      FirstWithin(rs[..|rs| - 1], user, day, n);
    }
  }

  lemma {:induction false} AllKeysConcat(a: seq<Record>, b: seq<Record>, user: string, day: string)
    ensures AllKeys(a + b, user, day) == AllKeys(a, user, day) + AllKeys(b, user, day)
    decreases |b|
  {
    hide IsFor;
    if b == [] {
      assert a + b == a;
    } else {
      assert (a + b)[..|a + b| - 1] == a + b[..|b| - 1];
      AllKeysConcat(a, b[..|b| - 1], user, day);
    }
  }

  lemma {:induction false} FirstOfSingles(rs: seq<Record>, user: string, day: string, n: nat)
    requires n > 0
    ensures FirstOfEach(Singles(rs), user, day, n) == AllKeys(rs, user, day)
    decreases |rs|
  {
    hide IsFor;
    if rs != [] {
      var before, r := rs[..|rs| - 1], rs[|rs| - 1];
      FirstOfSingles(before, user, day, n);
      var ws := Singles(rs);
      assert ws[..|ws| - 1] == Singles(before) && ws[|ws| - 1] == [r];
      assert [r][..0] == [];
      FirstOfSingle(r, user, day, n);
    }
  }

  lemma FirstOfSingle(r: Record, user: string, day: string, n: nat)
    requires n > 0
    ensures FirstKeys([r], user, day, n) == if IsFor(r, user, day) then {KeyOfRecord(r)} else {}
  {
    hide IsFor;
    assert [r][..0] == [];
  }

  // A cap of one, one user, one day, two flushes: two destination rows.
  method CapIsPerWindow(first: Record, second: Record) returns (a: seq<PendingDelta>, b: seq<PendingDelta>)
    requires Attributed(first) && first.host != OTHER_HOST && second.host != OTHER_HOST
    requires second.username == first.username && FormatDay(second.unixMillis) == FormatDay(first.unixMillis)
    requires KeyOfRecord(first) != KeyOfRecord(second)
    ensures var day := FormatDay(first.unixMillis);
      |Ordinary(RowsOf(a, first.username, day) + RowsOf(b, first.username, day))| == 2
  {
    hide ListsAll, Fold, RowsOf, FormatDay, KeyOfRecord;
    var agg := new Aggregator(1, 0);
    agg.Add(first);
    a := agg.TakePending();
    agg.Add(second);
    b := agg.TakePending();
    RowsOfOneRecord(first, a);
    RowsOfOneRecord(second, b);
    assert Ordinary({KeyOfRecord(first)} + {KeyOfRecord(second)}) == {KeyOfRecord(first), KeyOfRecord(second)} by {
      HostOfKey(first);
      HostOfKey(second);
    }
  }

  lemma HostOfKey(r: Record)
    ensures KeyOfRecord(r).host == r.host
  {
  }

  lemma RowsOfOneRecord(r: Record, out: seq<PendingDelta>)
    requires Attributed(r) && ListsAll(out, Fold(map[], r, 1))
    ensures RowsOf(out, r.username, FormatDay(r.unixMillis)) == {KeyOfRecord(r)}
  {
    hide ListsAll, RowsOf, FormatDay, OverflowKeys, Fold, FirstKeys, KeyOfRecord;
    var user, day := r.username, FormatDay(r.unixMillis);
    var events := [Added(r)];
    assert events[..0] == [];
    RowsOfWindow(events, 1, out, user, day);
    assert WindowOf(events) == [] + [r] == [r];
    FirstOfSingle(r, user, day, 1);
    NothingOverflows(r, user, day);
  }

  lemma NothingOverflows(r: Record, user: string, day: string)
    ensures OverflowKeys([r], user, day, 1) == {}
  {
    hide IsFor;
    assert [r][..0] == [];
    FirstOfSingle(r, user, day, 1);
  }
}
