// internal/analytics/service.go: the bounded queue, the flush and the retry batch.
module AnalyticsService {

  import opened Wrappers
  import opened Store
  import opened Tailer
  import opened Counters
  import opened Aggregator
  import opened Ledger
  import opened LedgerAgreement
  import FlushWindows

  // GetUserByUsername: a user id, ErrNotFound, or any other error.
  datatype Lookup = Found(id: int) | Missing | Broken

  // Zero stands for a user the store does not know; ids start at one.
  function IdOf(lookup: string -> Lookup, name: string): int {
    match lookup(name)
    case Found(id) => id
    case _ => 0
  }

  function TaggedUsage(us: seq<UsageDelta>, id: int): seq<UsageDelta> {
    if us == [] then [] else TaggedUsage(us[..|us| - 1], id) + [us[|us| - 1].(userID := id)]
  }

  function TaggedDests(ds: seq<DestinationDelta>, id: int): seq<DestinationDelta> {
    if ds == [] then [] else TaggedDests(ds[..|ds| - 1], id) + [ds[|ds| - 1].(userID := id)]
  }

  function ResolvedUsage(ps: seq<PendingDelta>, lookup: string -> Lookup): seq<UsageDelta> {
    if ps == [] then [] else
      var p := ps[|ps| - 1];
      var id := IdOf(lookup, p.username);
      ResolvedUsage(ps[..|ps| - 1], lookup) + if id == 0 then [] else TaggedUsage(p.usage, id)
  }

  function ResolvedDests(ps: seq<PendingDelta>, lookup: string -> Lookup): seq<DestinationDelta> {
    if ps == [] then [] else
      var p := ps[|ps| - 1];
      var id := IdOf(lookup, p.username);
      ResolvedDests(ps[..|ps| - 1], lookup) + if id == 0 then [] else TaggedDests(p.dests, id)
  }

  predicate LookupFails(ps: seq<PendingDelta>, lookup: string -> Lookup) {
    exists i | 0 <= i < |ps| :: lookup(ps[i].username).Broken?
  }

  // What draining a queue leaves in the aggregator.
  function FoldAll(users: Users, rs: seq<Record>, maxDests: int): Users {
    if rs == [] then users else Fold(FoldAll(users, rs[..|rs| - 1], maxDests), rs[|rs| - 1], maxDests)
  }

  datatype Flushed = Skipped | LookupFailed | ApplyFailed | Persisted

  class Service {
    const path: string
    const queueSize: nat
    const tailer: Tailer
    const agg: Aggregator
    const repo: AnalyticsRepository
    var q: seq<Record>
    var dropped: nat
    var retry: seq<PendingDelta>
    var lastPersisted: nat

    ghost predicate Valid()
      reads this, agg, agg.Footprint()
    {
      && |q| <= queueSize
      && agg.Valid()
      && {this as object, tailer, agg, repo} !! agg.Footprint()
    }

    constructor (path: string, resume: LogCursor, queueSize: nat, maxDests: int, ringSize: int, repo: AnalyticsRepository)
      ensures Valid() && fresh(agg) && fresh(agg.Footprint()) && fresh(tailer) && this.repo == repo
      ensures q == [] && retry == [] && dropped == 0 && lastPersisted == 0 && agg.users == map[]
      ensures tailer.offset == if resume.path == path then resume.offset else 0
    {
      this.path, this.queueSize, this.repo := path, queueSize, repo;
      tailer := new Tailer(path, resume.path, resume.offset);
      agg := new Aggregator(maxDests, ringSize);
      q, dropped, retry, lastPersisted := [], 0, [], 0;
    }

    // enqueue hands every record to the queue while there is room and drops and counts the rest.
    method Enqueue(recs: seq<Record>)
      requires Valid()
      modifies this`q, this`dropped
      ensures Valid()
      ensures var room := queueSize - |old(q)|;
        && q == old(q) + (if |recs| <= room then recs else recs[..room])
        && dropped == old(dropped) + (if |recs| <= room then 0 else |recs| - room)
    {
      for i := 0 to |recs|
        invariant |q| <= queueSize
        invariant var room := queueSize - |old(q)|;
          && q == old(q) + (if i <= room then recs[..i] else recs[..room])
          && dropped == old(dropped) + (if i <= room then 0 else i - room)
      {
        if |q| < queueSize {
          q := q + [recs[i]];
        } else {
          dropped := dropped + 1;
        }
      }
      assert recs[..|recs|] == recs;
    }

    // The drain loop of flush.
    method Drain()
      requires Valid()
      modifies this`q, agg, agg.Footprint()
      ensures Valid()
      ensures q == [] && agg.users == FoldAll(old(agg.users), old(q), agg.maxDests)
    {
      hide Fold;
      ghost var all := q;
      ghost var n := 0;
      while q != []
        invariant Valid()
        invariant 0 <= n <= |all| && q == all[n..]
        invariant agg.users == FoldAll(old(agg.users), all[..n], agg.maxDests)
        decreases |q|
      {
        agg.Add(q[0]);
        assert all[..n + 1][..n] == all[..n];
        q := q[1..];
        n := n + 1;
      }
      assert all[..n] == all;
    }

    // resolve maps usernames to ids, asking the store once per name; users confirmed unknown are left out.
    method Resolve(pending: seq<PendingDelta>, lookup: string -> Lookup)
      returns (r: Result<(seq<UsageDelta>, seq<DestinationDelta>), ()>)
      ensures r.Err? <==> LookupFails(pending, lookup)
      ensures r.Ok? ==> r.value == (ResolvedUsage(pending, lookup), ResolvedDests(pending, lookup))
    {
      var ids: map<string, int> := map[];
      var usage: seq<UsageDelta>, dests: seq<DestinationDelta> := [], [];
      for i := 0 to |pending|
        invariant forall name | name in ids :: ids[name] == IdOf(lookup, name) && !lookup(name).Broken?
        invariant forall j | 0 <= j < i :: !lookup(pending[j].username).Broken?
        invariant usage == ResolvedUsage(pending[..i], lookup) && dests == ResolvedDests(pending[..i], lookup)
      {
        assert pending[..i + 1][..i] == pending[..i];
        var p := pending[i];
        if p.username !in ids {
          match lookup(p.username)
          case Broken => return Err(());
          case Missing =>
            ids := ids[p.username := 0];
            continue;
          case Found(id) => ids := ids[p.username := id];
        }
        var id := ids[p.username];
        if id == 0 {
          continue;
        }
        usage := usage + TaggedUsage(p.usage, id);
        dests := dests + TaggedDests(p.dests, id);
      }
      assert pending[..|pending|] == pending;
      return Ok((usage, dests));
    }

    // flush: drain, take, merge the retry batch, read the offset, resolve, apply. taken is what the
    // aggregator handed over.
    method Flush(lookup: string -> Lookup, fault: Option<nat>) returns (outcome: Flushed, ghost taken: seq<PendingDelta>)
      requires Valid()
      modifies this`q, this`retry, this`lastPersisted, agg, agg.Footprint(), repo
      ensures Valid()
      ensures q == [] && agg.users == map[]
      ensures ListsAll(taken, FoldAll(old(agg.users), old(q), agg.maxDests))
      ensures var pending, offset := old(retry) + taken, tailer.offset;
        match outcome
        case Skipped =>
          pending == [] && offset == old(lastPersisted)
          && retry == [] && lastPersisted == old(lastPersisted) && repo.t == old(repo.t)
        case LookupFailed =>
          LookupFails(pending, lookup)
          && retry == pending && lastPersisted == old(lastPersisted) && repo.t == old(repo.t)
        case ApplyFailed =>
          (fault.Some? || !KnownUsers(old(repo.t).users, ResolvedUsage(pending, lookup), ResolvedDests(pending, lookup)))
          && retry == pending && lastPersisted == old(lastPersisted) && repo.t == old(repo.t)
        case Persisted =>
          !LookupFails(pending, lookup)
          && retry == [] && lastPersisted == offset
          && repo.t == Applied(old(repo.t), ResolvedUsage(pending, lookup), ResolvedDests(pending, lookup),
                               LogCursor(path, offset))
    {
      hide ListsAll, FoldAll, Applied, KnownUsers, LookupFails, ResolvedUsage, ResolvedDests;
      Drain();
      var pending := agg.TakePending();
      taken := pending;
      if |retry| > 0 {
        pending := retry + pending;
        retry := [];
      } else {
        assert retry + pending == pending;
      }
      var offset := tailer.offset;
      if |pending| == 0 && offset == lastPersisted {
        return Skipped, taken;
      }
      var resolved := Resolve(pending, lookup);
      if resolved.Err? {
        retry := pending;
        return LookupFailed, taken;
      }
      var ok := repo.ApplyDeltas(resolved.value.0, resolved.value.1, LogCursor(path, offset), fault);
      if !ok {
        retry := pending;
        return ApplyFailed, taken;
      }
      lastPersisted := offset;
      return Persisted, taken;
    }
  }

  // ---- a resolved batch is good for the ledger ----

  // The deltas of one user balance, and their months fit their days.
  ghost predicate GoodDelta(p: PendingDelta) {
    FlushWindows.Balanced(p) && forall i | 0 <= i < |p.usage| :: p.usage[i].month == MonthOf(p.usage[i].day)
  }

  // Whatever mix of users, known or not, a batch of good deltas resolves to a good batch.
  lemma {:induction false} ResolvedIsGood(ps: seq<PendingDelta>, lookup: string -> Lookup)
    requires forall i | 0 <= i < |ps| :: GoodDelta(ps[i])
    ensures GoodBatch(ResolvedUsage(ps, lookup), ResolvedDests(ps, lookup))
    decreases |ps|
  {
    hide IdOf, GoodDelta;
    if ps != [] {
      var p := ps[|ps| - 1];
      var id := IdOf(lookup, p.username);
      ResolvedIsGood(ps[..|ps| - 1], lookup);
      if id == 0 {
        assert ResolvedUsage(ps, lookup) == ResolvedUsage(ps[..|ps| - 1], lookup);
        assert ResolvedDests(ps, lookup) == ResolvedDests(ps[..|ps| - 1], lookup);
      } else {
        TaggedIsGood(p, id);
        GoodConcat(ResolvedUsage(ps[..|ps| - 1], lookup), ResolvedDests(ps[..|ps| - 1], lookup),
                   TaggedUsage(p.usage, id), TaggedDests(p.dests, id));
      }
    }
  }

  lemma GoodConcat(us1: seq<UsageDelta>, ds1: seq<DestinationDelta>, us2: seq<UsageDelta>, ds2: seq<DestinationDelta>)
    requires GoodBatch(us1, ds1) && GoodBatch(us2, ds2)
    ensures GoodBatch(us1 + us2, ds1 + ds2)
  {
    hide UsageSum, StatSum;
    forall user, day ensures UsageSum(us1 + us2, user, day) == StatSum(ds1 + ds2, user, day) {
      UsageSumConcat(us1, us2, user, day);
      StatSumConcat(ds1, ds2, user, day);
      assert UsageSum(us1, user, day) == StatSum(ds1, user, day);
      assert UsageSum(us2, user, day) == StatSum(ds2, user, day);
    }
  }

  lemma {:induction false} UsageSumConcat(a: seq<UsageDelta>, b: seq<UsageDelta>, user: int, day: string)
    ensures UsageSum(a + b, user, day) == PlusTraffic(UsageSum(a, user, day), UsageSum(b, user, day))
    decreases |b|
  {
    hide UsagePartOf;
    if b == [] {
      assert a + b == a;
    } else {
      assert (a + b)[..|a + b| - 1] == a + b[..|b| - 1];
      UsageSumConcat(a, b[..|b| - 1], user, day);
    }
  }

  lemma {:induction false} StatSumConcat(a: seq<DestinationDelta>, b: seq<DestinationDelta>, user: int, day: string)
    ensures StatSum(a + b, user, day) == PlusTraffic(StatSum(a, user, day), StatSum(b, user, day))
    decreases |b|
  {
    hide StatPartOf;
    if b == [] {
      assert a + b == a;
    } else {
      assert (a + b)[..|a + b| - 1] == a + b[..|b| - 1];
      StatSumConcat(a, b[..|b| - 1], user, day);
    }
  }

  lemma {:induction false} TaggedUsageIs(us: seq<UsageDelta>, id: int)
    ensures |TaggedUsage(us, id)| == |us|
    ensures forall i | 0 <= i < |us| :: TaggedUsage(us, id)[i] == us[i].(userID := id)
    decreases |us|
  {
    if us != [] {
      TaggedUsageIs(us[..|us| - 1], id);
    }
  }

  lemma {:induction false} TaggedDestsAre(ds: seq<DestinationDelta>, id: int)
    ensures |TaggedDests(ds, id)| == |ds|
    ensures forall i | 0 <= i < |ds| :: TaggedDests(ds, id)[i] == ds[i].(userID := id)
    decreases |ds|
  {
    if ds != [] {
      TaggedDestsAre(ds[..|ds| - 1], id);
    }
  }

  // The row is one of a user the store knows, under that user's id.
  ghost predicate ComesFrom(x: DestinationDelta, ps: seq<PendingDelta>, lookup: string -> Lookup) {
    exists i, j ::
      && 0 <= i < |ps| && 0 <= j < |ps[i].dests| && IdOf(lookup, ps[i].username) != 0
      && x == ps[i].dests[j].(userID := IdOf(lookup, ps[i].username))
  }

  // Resolving fills in the ids and changes no row otherwise: host, port, protocol, day and counters stay.
  lemma {:induction false} ResolvedDestsExactly(ps: seq<PendingDelta>, lookup: string -> Lookup, x: DestinationDelta)
    ensures x in ResolvedDests(ps, lookup) <==> ComesFrom(x, ps, lookup)
    decreases |ps|
  {
    hide IdOf, ComesFrom, TaggedDests;
    if ps == [] {
      ComesFromNone(x, lookup);
    } else {
      ResolvedDestsExactly(ps[..|ps| - 1], lookup, x);
      ComesFromBefore(x, ps, lookup);
      ComesFromLast(x, ps, lookup);
    }
  }

  lemma ComesFromNone(x: DestinationDelta, lookup: string -> Lookup)
    ensures !ComesFrom(x, [], lookup)
  {
  }

  lemma ComesFromLast(x: DestinationDelta, ps: seq<PendingDelta>, lookup: string -> Lookup)
    requires ps != []
    ensures var p := ps[|ps| - 1];
      var id := IdOf(lookup, p.username);
      && (id != 0 && x in TaggedDests(p.dests, id) ==> ComesFrom(x, ps, lookup))
      && (ComesFrom(x, ps, lookup) ==> ComesFrom(x, ps[..|ps| - 1], lookup) || (id != 0 && x in TaggedDests(p.dests, id)))
  {
    hide IdOf;
    var before, p := ps[..|ps| - 1], ps[|ps| - 1];
    var id := IdOf(lookup, p.username);
    TaggedDestsAre(p.dests, id);
    if id != 0 && x in TaggedDests(p.dests, id) {
      var j :| 0 <= j < |p.dests| && TaggedDests(p.dests, id)[j] == x;
      assert x == ps[|ps| - 1].dests[j].(userID := id);
    }
    if ComesFrom(x, ps, lookup) {
      var i, j :| 0 <= i < |ps| && 0 <= j < |ps[i].dests| && IdOf(lookup, ps[i].username) != 0
                  && x == ps[i].dests[j].(userID := IdOf(lookup, ps[i].username));
      if i < |before| {
        assert before[i] == ps[i];
      } else {
        assert TaggedDests(p.dests, id)[j] == x;
      }
    }
  }

  lemma ComesFromBefore(x: DestinationDelta, ps: seq<PendingDelta>, lookup: string -> Lookup)
    requires ps != []
    ensures ComesFrom(x, ps[..|ps| - 1], lookup) ==> ComesFrom(x, ps, lookup)
  {
    hide IdOf;
    var before := ps[..|ps| - 1];
    if i, j :| 0 <= i < |before| && 0 <= j < |before[i].dests| && IdOf(lookup, before[i].username) != 0
               && x == before[i].dests[j].(userID := IdOf(lookup, before[i].username)) {
      assert ps[i] == before[i];
    }
  }

  lemma {:induction false} TaggedUsageSum(us: seq<UsageDelta>, id: int, user: int, day: string)
    ensures UsageSum(TaggedUsage(us, id), user, day) == if id == user then UsageTotal(us, day) else NO_TRAFFIC
    decreases |us|
  {
    hide UsagePart, UsagePartOf;
    if us != [] {
      var before, last := us[..|us| - 1], us[|us| - 1];
      TaggedUsageSum(before, id, user, day);
      UsageSumConcat(TaggedUsage(before, id), [last.(userID := id)], user, day);
      UsageSumOfOne(last, id, user, day);
    }
  }

  lemma UsageSumOfOne(u: UsageDelta, id: int, user: int, day: string)
    ensures UsageSum([u.(userID := id)], user, day) == if id == user then UsagePart(u, day) else NO_TRAFFIC
  {
    hide UsageSum;
    OneUsageSum(u.(userID := id), user, day);
  }

  lemma OneUsageSum(u: UsageDelta, user: int, day: string)
    ensures UsageSum([u], user, day) == UsagePartOf(u, user, day)
  {
    hide UsagePartOf;
    assert [u][..0] == [];
  }

  lemma {:induction false} TaggedStatSum(ds: seq<DestinationDelta>, id: int, user: int, day: string)
    ensures StatSum(TaggedDests(ds, id), user, day)
            == if id == user then TrafficOf(DestinationTotal(ds, day, All)) else NO_TRAFFIC
    decreases |ds|
  {
    hide DestinationPart, StatPartOf;
    if ds != [] {
      var before, last := ds[..|ds| - 1], ds[|ds| - 1];
      TaggedStatSum(before, id, user, day);
      StatSumConcat(TaggedDests(before, id), [last.(userID := id)], user, day);
      StatSumOfOne(last, id, user, day);
    }
  }

  lemma StatSumOfOne(d: DestinationDelta, id: int, user: int, day: string)
    ensures StatSum([d.(userID := id)], user, day)
            == if id == user then TrafficOf(DestinationPart(d, day, All)) else NO_TRAFFIC
  {
    hide StatSum;
    OneStatSum(d.(userID := id), user, day);
  }

  lemma OneStatSum(d: DestinationDelta, user: int, day: string)
    ensures StatSum([d], user, day) == StatPartOf(d, user, day)
  {
    hide StatPartOf;
    assert [d][..0] == [];
  }

  lemma TaggedIsGood(p: PendingDelta, id: int)
    requires GoodDelta(p)
    ensures GoodBatch(TaggedUsage(p.usage, id), TaggedDests(p.dests, id))
  {
    hide TaggedUsage, TaggedDests, UsageSum, StatSum, UsageTotal, DestinationTotal;
    forall user, day
      ensures UsageSum(TaggedUsage(p.usage, id), user, day) == StatSum(TaggedDests(p.dests, id), user, day)
    {
      TaggedUsageSum(p.usage, id, user, day);
      TaggedStatSum(p.dests, id, user, day);
      assert UsageTotal(p.usage, day) == TrafficOf(DestinationTotal(p.dests, day, All));
    }
    TaggedUsageIs(p.usage, id);
  }
}
