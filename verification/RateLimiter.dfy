// internal/api/middleware.go: the token bucket per client address. Times are seconds as reals.
module RateLimiter {

  import opened Wrappers

  const RATE := 5
  const BURST := 30
  const MAX_IPS := 8192
  const NANOS := 1_000_000_000.0

  datatype Bucket = Bucket(tokens: real, last: real)

  datatype Rule = Rule(rate: real, burst: real)

  // ---- one request ----

  // The tokens a span of seconds is worth.
  function Earned(rule: Rule, seconds: real): real {
    seconds * rule.rate
  }

  // The bucket after refilling for the time since it was last touched.
  function Refilled(rule: Rule, b: Bucket, now: real): Bucket {
    var tokens := b.tokens + Earned(rule, now - b.last);
    Bucket(if tokens > rule.burst then rule.burst else tokens, now)
  }

  function BucketOf(rule: Rule, buckets: map<string, Bucket>, ip: string, now: real): Bucket {
    if ip in buckets then buckets[ip] else Bucket(rule.burst, now)
  }

  // Buckets idle for more than a minute are dropped once the table is full.
  function Trimmed(buckets: map<string, Bucket>, now: real): map<string, Bucket> {
    if |buckets| < MAX_IPS then buckets
    else map ip | ip in buckets && now - buckets[ip].last <= 60.0 :: buckets[ip]
  }

  predicate Admits(rule: Rule, b: Bucket, now: real) {
    Refilled(rule, b, now).tokens >= 1.0
  }

  function Charged(rule: Rule, b: Bucket, now: real): Bucket {
    var full := Refilled(rule, b, now);
    if full.tokens < 1.0 then full else full.(tokens := full.tokens - 1.0)
  }

  function Touched(rule: Rule, buckets: map<string, Bucket>, ip: string, now: real): map<string, Bucket> {
    buckets[ip := Charged(rule, BucketOf(rule, buckets, ip, now), now)]
  }

  // The wait in nanoseconds and the whole seconds put into the Retry-After header.
  function WaitNanos(rule: Rule, tokens: real): int
    requires rule.rate > 0.0
  {
    ((1.0 - tokens) / rule.rate * NANOS).Floor
  }

  function RetryAfter(nanos: int): int {
    var secs := (nanos as real / NANOS).Floor + 1;
    if secs < 1 then 1 else secs
  }

  class RateLimiter {
    const rule: Rule
    var buckets: map<string, Bucket>

    constructor (rate: int, burst: int)
      ensures rule == Rule(rate as real, burst as real) && buckets == map[]
    {
      rule := Rule(rate as real, burst as real);
      buckets := map[];
    }

    method Allow(ip: string, now: real) returns (ok: bool, wait: int)
      requires rule.rate > 0.0
      modifies this
      ensures var kept := Trimmed(old(buckets), now);
        var b := BucketOf(rule, kept, ip, now);
        && buckets == Touched(rule, kept, ip, now)
        && ok == Admits(rule, b, now)
        && wait == if ok then 0 else WaitNanos(rule, Refilled(rule, b, now).tokens)
    {
      hide Earned, WaitNanos;
      if |buckets| >= MAX_IPS {
        buckets := Sweep(buckets, now);
      }
      var b := BucketOf(rule, buckets, ip, now);
      var elapsed := now - b.last;
      b := b.(tokens := b.tokens + Earned(rule, elapsed));
      if b.tokens > rule.burst {
        b := b.(tokens := rule.burst);
      }
      b := b.(last := now);
      if b.tokens < 1.0 {
        buckets := buckets[ip := b];
        return false, WaitNanos(rule, b.tokens);
      }
      buckets := buckets[ip := b.(tokens := b.tokens - 1.0)];
      return true, 0;
    }

    static method Sweep(all: map<string, Bucket>, now: real) returns (kept: map<string, Bucket>)
      ensures kept == map ip | ip in all && now - all[ip].last <= 60.0 :: all[ip]
    {
      kept := all;
      var todo := all.Keys;
      while todo != {}
        invariant todo <= all.Keys && todo <= kept.Keys <= all.Keys
        invariant forall ip | ip in kept :: kept[ip] == all[ip]
        invariant forall ip | ip in all && ip !in todo :: ip in kept <==> now - all[ip].last <= 60.0
        decreases |todo|
      {
        var ip := Pick(todo);
        if now - kept[ip].last > 60.0 {
          kept := kept - {ip};
        }
        todo := todo - {ip};
      }
    }
  }

  // ---- runs ----

  datatype Request = Request(ip: string, at: real)

  predicate InOrder(rs: seq<Request>) {
    forall i, j | 0 <= i < j < |rs| :: rs[i].at <= rs[j].at
  }

  function After(rule: Rule, rs: seq<Request>): map<string, Bucket> {
    if rs == [] then map[] else
      var r := rs[|rs| - 1];
      Touched(rule, Trimmed(After(rule, rs[..|rs| - 1]), r.at), r.ip, r.at)
  }

  // The answer to request i.
  predicate Admitted(rule: Rule, rs: seq<Request>, i: nat)
    requires i < |rs|
  {
    Admits(rule, BucketOf(rule, Trimmed(After(rule, rs[..i]), rs[i].at), rs[i].ip, rs[i].at), rs[i].at)
  }

  // The same without ever dropping a bucket.
  function AfterAll(rule: Rule, rs: seq<Request>): map<string, Bucket> {
    if rs == [] then map[] else
      var r := rs[|rs| - 1];
      Touched(rule, AfterAll(rule, rs[..|rs| - 1]), r.ip, r.at)
  }

  predicate AdmittedKeepingAll(rule: Rule, rs: seq<Request>, i: nat)
    requires i < |rs|
  {
    Admits(rule, BucketOf(rule, AfterAll(rule, rs[..i]), rs[i].ip, rs[i].at), rs[i].at)
  }

  // A positive rate, room for a request, and a minute that refills a bucket.
  predicate Sane(rule: Rule) {
    rule.rate > 0.0 && rule.burst >= 1.0 && 60.0 * rule.rate >= rule.burst
  }

  // The limits the server runs with are sane.
  lemma ServerRule()
    ensures Sane(Rule(RATE as real, BURST as real))
  {
  }

  // ---- dropping idle buckets is not observable ----

  predicate GoodBucket(rule: Rule, b: Bucket, now: real) {
    0.0 <= b.tokens <= rule.burst && b.last <= now
  }

  // What remains is as it would be, and what is gone has been idle long enough to be full again.
  ghost predicate Simulates(rule: Rule, kept: map<string, Bucket>, all: map<string, Bucket>, now: real) {
    && (forall ip | ip in all :: GoodBucket(rule, all[ip], now))
    && (forall ip | ip in kept :: ip in all && kept[ip] == all[ip])
    && (forall ip | ip in all && ip !in kept :: now - all[ip].last > 60.0)
  }

  lemma EarnedMore(rule: Rule, a: real, b: real)
    requires rule.rate > 0.0 && a <= b
    ensures Earned(rule, a) <= Earned(rule, b) && (a < b ==> Earned(rule, a) < Earned(rule, b))
    ensures Earned(rule, 0.0) == 0.0
  {
  }

  lemma EarnedSum(rule: Rule, a: real, b: real)
    ensures Earned(rule, a) + Earned(rule, b) == Earned(rule, a + b)
  {
  }

  lemma MinuteRefills(rule: Rule, b: Bucket, now: real)
    requires Sane(rule) && GoodBucket(rule, b, now) && now - b.last > 60.0
    ensures Refilled(rule, b, now) == Bucket(rule.burst, now)
    ensures Refilled(rule, Bucket(rule.burst, now), now) == Bucket(rule.burst, now)
  {
    EarnedMore(rule, 60.0, now - b.last);
    EarnedMore(rule, 0.0, 0.0);
    assert Earned(rule, 60.0) >= rule.burst;
    hide Earned;
    assert now - now == 0.0;
  }

  lemma RefillIsGood(rule: Rule, b: Bucket, now: real)
    requires Sane(rule) && GoodBucket(rule, b, now)
    ensures GoodBucket(rule, Refilled(rule, b, now), now) && GoodBucket(rule, Charged(rule, b, now), now)
  {
    hide Earned;
    EarnedMore(rule, 0.0, now - b.last);
  }

  lemma SimulationStep(rule: Rule, kept: map<string, Bucket>, all: map<string, Bucket>, was: real, ip: string, now: real)
    requires Sane(rule) && Simulates(rule, kept, all, was) && was <= now
    ensures Simulates(rule, Touched(rule, Trimmed(kept, now), ip, now), Touched(rule, all, ip, now), now)
    ensures Admits(rule, BucketOf(rule, Trimmed(kept, now), ip, now), now)
            <==> Admits(rule, BucketOf(rule, all, ip, now), now)
  {
    hide Refilled;
    var trimmed := Trimmed(kept, now);
    var b := BucketOf(rule, all, ip, now);
    assert GoodBucket(rule, b, now);
    RefillIsGood(rule, b, now);
    if ip in all && ip !in trimmed {
      MinuteRefills(rule, b, now);
    }
    assert Refilled(rule, BucketOf(rule, trimmed, ip, now), now) == Refilled(rule, b, now);
  }

  function LastTime(rs: seq<Request>): real {
    if rs == [] then 0.0 else rs[|rs| - 1].at
  }

  lemma {:induction false} RunsSimulate(rule: Rule, rs: seq<Request>)
    requires Sane(rule) && InOrder(rs)
    ensures Simulates(rule, After(rule, rs), AfterAll(rule, rs), LastTime(rs))
    decreases |rs|
  {
    hide Touched, Trimmed;
    if rs != [] {
      var before, r := rs[..|rs| - 1], rs[|rs| - 1];
      RunsSimulate(rule, before);
      if before != [] {
        SimulationStep(rule, After(rule, before), AfterAll(rule, before), LastTime(before), r.ip, r.at);
      } else {
        SimulationStep(rule, map[], map[], r.at, r.ip, r.at);
      }
    }
  }

  // Dropping idle buckets never changes an answer.
  lemma EvictionIsUnobservable(rule: Rule, rs: seq<Request>, i: nat)
    requires Sane(rule) && InOrder(rs) && i < |rs|
    ensures Admitted(rule, rs, i) <==> AdmittedKeepingAll(rule, rs, i)
  {
    hide Touched, Trimmed, Admits;
    var before := rs[..i];
    RunsSimulate(rule, before);
    if i > 0 {
      assert LastTime(before) == rs[i - 1].at;
      SimulationStep(rule, After(rule, before), AfterAll(rule, before), rs[i - 1].at, rs[i].ip, rs[i].at);
    } else {
      SimulationStep(rule, map[], map[], rs[i].at, rs[i].ip, rs[i].at);
    }
  }

  // ---- the rate bound ----

  // How many requests of an address are admitted from index i up to j.
  function AdmittedCount(rule: Rule, rs: seq<Request>, ip: string, i: nat, j: nat): nat
    requires i <= j <= |rs|
    decreases j
  {
    if i == j then 0 else
      AdmittedCount(rule, rs, ip, i, j - 1) + if rs[j - 1].ip == ip && Admitted(rule, rs, j - 1) then 1 else 0
  }

  // From index i on, an address has spent no more than a full bucket and what was refilled since.
  ghost predicate WithinBudget(rule: Rule, b: Bucket, count: nat, start: real) {
    b.last >= start && count as real + b.tokens <= rule.burst + Earned(rule, b.last - start)
  }

  lemma ChargeKeepsBudget(rule: Rule, b: Bucket, count: nat, start: real, now: real)
    requires Sane(rule) && GoodBucket(rule, b, now) && start <= now
    requires count == 0 || WithinBudget(rule, b, count, start)
    ensures WithinBudget(rule, Charged(rule, b, now), count + if Admits(rule, b, now) then 1 else 0, start)
  {
    hide Earned;
    EarnedMore(rule, 0.0, now - start);
    if WithinBudget(rule, b, count, start) {
      EarnedSum(rule, b.last - start, now - b.last);
      assert (b.last - start) + (now - b.last) == now - start;
    }
  }

  lemma {:induction false} BudgetHolds(rule: Rule, rs: seq<Request>, ip: string, i: nat, j: nat)
    requires Sane(rule) && InOrder(rs) && i < j <= |rs|
    ensures var all, count := AfterAll(rule, rs[..j]), AdmittedCount(rule, rs, ip, i, j);
      && (count > 0 ==> ip in all && WithinBudget(rule, all[ip], count, rs[i].at))
      && (ip in all ==> GoodBucket(rule, all[ip], rs[j - 1].at))
    decreases j
  {
    hide Charged, Admits, Trimmed, WithinBudget;
    var before, r := rs[..j - 1], rs[j - 1];
    assert rs[..j][..j - 1] == before;
    RunsSimulate(rule, rs[..j]);
    EvictionIsUnobservable(rule, rs, j - 1);
    if j - 1 > i {
      BudgetHolds(rule, rs, ip, i, j - 1);
    }
    if r.ip == ip {
      var b := BucketOf(rule, AfterAll(rule, before), ip, r.at);
      RunsSimulate(rule, before);
      assert GoodBucket(rule, b, r.at);
      ChargeKeepsBudget(rule, b, AdmittedCount(rule, rs, ip, i, j - 1), rs[i].at, r.at);
    }
  }

  lemma EarnedIs(rule: Rule, seconds: real)
    ensures Earned(rule, seconds) == rule.rate * seconds
  {
  }

  // The requests admitted from one address between two moments never exceed the burst and what the rate
  // allows for the time between them, however the table is trimmed on the way.
  lemma AdmissionBound(rule: Rule, rs: seq<Request>, ip: string, i: nat, j: nat)
    requires Sane(rule) && InOrder(rs) && i < j <= |rs|
    ensures AdmittedCount(rule, rs, ip, i, j) as real <= rule.burst + rule.rate * (rs[j - 1].at - rs[i].at)
  {
    hide AfterAll, Earned, AdmittedCount;
    BudgetHolds(rule, rs, ip, i, j);
    var all, span := AfterAll(rule, rs[..j]), rs[j - 1].at - rs[i].at;
    assert span >= 0.0;
    EarnedMore(rule, 0.0, span);
    if AdmittedCount(rule, rs, ip, i, j) > 0 {
      EarnedMore(rule, all[ip].last - rs[i].at, span);
      assert AdmittedCount(rule, rs, ip, i, j) as real <= rule.burst + Earned(rule, span);
    }
    assert AdmittedCount(rule, rs, ip, i, j) as real <= rule.burst + Earned(rule, span);
    EarnedIs(rule, span);
  }

  // ---- the converse: who is refused has used up an allowance ----

  // Some earlier request of the address found a full bucket, and everything earned since then and not spent is
  // still there.
  lemma {:induction false} BudgetIsExact(rule: Rule, rs: seq<Request>, ip: string, j: nat) returns (i: nat)
    requires Sane(rule) && InOrder(rs) && j <= |rs| && ip in AfterAll(rule, rs[..j])
    ensures var b := AfterAll(rule, rs[..j])[ip];
      && i < j && rs[i].at <= b.last <= rs[j - 1].at
      && AdmittedCount(rule, rs, ip, i, j) as real + b.tokens == rule.burst + Earned(rule, b.last - rs[i].at)
    decreases j
  {
    hide Charged, Refilled, Admits, Admitted, Trimmed, Earned;
    var before, r := rs[..j - 1], rs[j - 1];
    assert rs[..j][..j - 1] == before;
    if r.ip != ip {
      i := BudgetIsExact(rule, rs, ip, j - 1);
    } else {
      EvictionIsUnobservable(rule, rs, j - 1);
      var b := BucketOf(rule, AfterAll(rule, before), ip, r.at);
      EarnedMore(rule, 0.0, 0.0);
      i := j - 1;
      if ip in AfterAll(rule, before) {
        var k := BudgetIsExact(rule, rs, ip, j - 1);
        if b.tokens + Earned(rule, r.at - b.last) <= rule.burst {
          i := k;
          EarnedSum(rule, b.last - rs[i].at, r.at - b.last);
          assert (b.last - rs[i].at) + (r.at - b.last) == r.at - rs[i].at;
        }
      }
      ChargeSpends(rule, b, r.at);
      assert r.at - r.at == 0.0;
    }
  }

  // An admission costs one token and a refusal none.
  lemma ChargeSpends(rule: Rule, b: Bucket, now: real)
    ensures var earned := b.tokens + Earned(rule, now - b.last);
      Charged(rule, b, now) == Bucket((if earned > rule.burst then rule.burst else earned)
                                      - if Admits(rule, b, now) then 1.0 else 0.0, now)
  {
  }

  // One more request of the address at index j would still be within the burst and the rate since index i.
  predicate Affordable(rule: Rule, rs: seq<Request>, i: nat, j: nat)
    requires i <= j < |rs|
  {
    AdmittedCount(rule, rs, rs[j].ip, i, j) as real + 1.0 <= rule.burst + rule.rate * (rs[j].at - rs[i].at)
  }

  // A request is admitted exactly when, counted from every earlier moment, it keeps within the bound: the
  // limiter refuses nothing that the burst and the rate allow.
  lemma AdmittedExactlyWhen(rule: Rule, rs: seq<Request>, j: nat)
    requires Sane(rule) && InOrder(rs) && j < |rs|
    ensures Admitted(rule, rs, j) <==> forall i: nat | i <= j :: Affordable(rule, rs, i, j)
  {
    hide Admitted, AfterAll, Refilled;
    if Admitted(rule, rs, j) {
      forall i: nat | i <= j ensures Affordable(rule, rs, i, j) {
        AdmissionBound(rule, rs, rs[j].ip, i, j + 1);
      }
    } else {
      var i := RefusedIsUnaffordable(rule, rs, j);
    }
  }

  lemma RefusedIsUnaffordable(rule: Rule, rs: seq<Request>, j: nat) returns (i: nat)
    requires Sane(rule) && InOrder(rs) && j < |rs| && !Admitted(rule, rs, j)
    ensures i <= j && !Affordable(rule, rs, i, j)
  {
    hide Admitted, AfterAll, Earned, Trimmed;
    var ip, now := rs[j].ip, rs[j].at;
    EvictionIsUnobservable(rule, rs, j);
    EarnedMore(rule, 0.0, 0.0);
    assert now - now == 0.0;
    assert ip in AfterAll(rule, rs[..j]);
    var b := AfterAll(rule, rs[..j])[ip];
    i := BudgetIsExact(rule, rs, ip, j);
    EarnedSum(rule, b.last - rs[i].at, now - b.last);
    assert (b.last - rs[i].at) + (now - b.last) == now - rs[i].at;
    EarnedIs(rule, now - rs[i].at);
  }

  // ---- the size of the table ----

  // A table that has grown past its limit holds only addresses seen within the last minute.
  lemma TableIsBounded(rule: Rule, rs: seq<Request>)
    requires rs != []
    ensures var buckets := After(rule, rs);
      |buckets| <= MAX_IPS || forall ip | ip in buckets :: rs[|rs| - 1].at - buckets[ip].last <= 60.0
  {
    hide Charged, BucketOf;
    var r := rs[|rs| - 1];
    var was := After(rule, rs[..|rs| - 1]);
    var kept := Trimmed(was, r.at);
    TouchedHas(rule, kept, r.ip, r.at);
    ChargedLast(rule, BucketOf(rule, kept, r.ip, r.at), r.at);
    assert After(rule, rs).Keys == kept.Keys + {r.ip};
  }

  // ---- Retry-After ----

  lemma RetryAfterSuffices(rule: Rule, tokens: real)
    requires Sane(rule) && tokens < 1.0
    ensures RetryAfter(WaitNanos(rule, tokens)) >= 1
    ensures tokens + Earned(rule, RetryAfter(WaitNanos(rule, tokens)) as real) >= 1.0
  {
    var x := (1.0 - tokens) / rule.rate;
    var nanos := (x * NANOS).Floor;
    assert x > 0.0 && x * rule.rate == 1.0 - tokens;
    var secs := RetryAfter(nanos);
    FloorOfFloor(x);
    assert secs as real >= x;
    assert secs as real * rule.rate >= x * rule.rate;
  }

  // And no longer than it has to be: a second less brings at most the missing token.
  lemma RetryAfterIsTight(rule: Rule, tokens: real)
    requires Sane(rule) && tokens < 1.0
    ensures tokens + Earned(rule, (RetryAfter(WaitNanos(rule, tokens)) - 1) as real) <= 1.0
  {
    var x := (1.0 - tokens) / rule.rate;
    var nanos := (x * NANOS).Floor;
    assert x > 0.0 && x * rule.rate == 1.0 - tokens;
    FloorOfFloor(x);
    var secs := RetryAfter(nanos) - 1;
    assert secs == (nanos as real / NANOS).Floor;
    assert secs as real <= nanos as real / NANOS <= x;
    assert secs as real * rule.rate <= x * rule.rate;
  }

  // Whole seconds of whole nanoseconds are the whole seconds.
  lemma FloorOfFloor(x: real)
    requires x > 0.0
    ensures (((x * NANOS).Floor) as real / NANOS).Floor + 1 > 0
    ensures ((((x * NANOS).Floor) as real / NANOS).Floor + 1) as real > x
  {
    var n := (x * NANOS).Floor;
    var s := (n as real / NANOS).Floor;
    assert n >= 0;
    assert s as real + 1.0 > n as real / NANOS;
    assert (s + 1) as real * NANOS > n as real;
    assert (s + 1) * 1_000_000_000 > n;
    assert (s + 1) * 1_000_000_000 >= n + 1;
    assert (s + 1) as real * NANOS >= (n + 1) as real > x * NANOS;
  }

  // No request of the address is admitted strictly between two indices.
  predicate NoneAdmitted(rule: Rule, rs: seq<Request>, ip: string, i: nat, j: nat)
    requires i < j <= |rs|
  {
    forall k | i < k < j :: rs[k].ip == ip ==> !Admitted(rule, rs, k)
  }

  // Refused requests do not slow the refilling.
  lemma {:induction false} RefillWhileRefused(rule: Rule, rs: seq<Request>, i: nat, j: nat)
    requires Sane(rule) && InOrder(rs) && i < j <= |rs|
    requires !Admitted(rule, rs, i) && NoneAdmitted(rule, rs, rs[i].ip, i, j)
    ensures var ip := rs[i].ip;
      var all := AfterAll(rule, rs[..j]);
      var b := AfterAll(rule, rs[..i + 1])[ip];
      && ip in all && b.last == rs[i].at <= all[ip].last <= rs[j - 1].at
      && all[ip] == Refilled(rule, b, all[ip].last)
    decreases j
  {
    hide Refilled, Trimmed, Admits;
    var ip, before, r := rs[i].ip, rs[..j - 1], rs[j - 1];
    assert rs[..j][..j - 1] == before;
    assert rs[..i + 1][..i] == rs[..i];
    var b := AfterAll(rule, rs[..i + 1])[ip];
    EvictionIsUnobservable(rule, rs, i);
    ChargedLast(rule, BucketOf(rule, AfterAll(rule, rs[..i]), ip, rs[i].at), rs[i].at);
    if j - 1 > i {
      assert NoneAdmitted(rule, rs, ip, i, j - 1);
      RefillWhileRefused(rule, rs, i, j - 1);
      if r.ip == ip {
        EvictionIsUnobservable(rule, rs, j - 1);
        var mid := AfterAll(rule, before)[ip];
        ChargedLast(rule, mid, r.at);
        RunsSimulate(rule, rs[..i + 1]);
        assert GoodBucket(rule, b, rs[i].at);
        RefillTwice(rule, b, mid.last, r.at);
      }
    } else {
      RefillAtOnce(rule, BucketOf(rule, AfterAll(rule, rs[..i]), ip, rs[i].at), rs[i].at);
    }
  }

  lemma ChargedLast(rule: Rule, b: Bucket, now: real)
    ensures Charged(rule, b, now).last == now
    ensures !Admits(rule, b, now) ==> Charged(rule, b, now) == Refilled(rule, b, now)
  {
  }

  lemma RefillAtOnce(rule: Rule, b: Bucket, now: real)
    ensures Refilled(rule, Refilled(rule, b, now), now) == Refilled(rule, b, now)
  {
    assert Earned(rule, now - now) == 0.0;
  }

  lemma RefillTwice(rule: Rule, b: Bucket, mid: real, now: real)
    requires Sane(rule) && b.last <= mid <= now
    ensures Refilled(rule, Refilled(rule, b, mid), now) == Refilled(rule, b, now)
  {
    hide Earned;
    EarnedSum(rule, mid - b.last, now - mid);
    assert (mid - b.last) + (now - mid) == now - b.last;
    EarnedMore(rule, 0.0, now - mid);
  }

  // A refused request learns how long to wait: the next request of that address after the reported whole
  // seconds is admitted, provided none was admitted in between.
  lemma WaitingIsEnough(rule: Rule, rs: seq<Request>, i: nat, j: nat)
    requires Sane(rule) && InOrder(rs) && i < j < |rs|
    requires !Admitted(rule, rs, i) && rs[j].ip == rs[i].ip && NoneAdmitted(rule, rs, rs[i].ip, i, j)
    requires var b := BucketOf(rule, Trimmed(After(rule, rs[..i]), rs[i].at), rs[i].ip, rs[i].at);
      rs[j].at >= rs[i].at + RetryAfter(WaitNanos(rule, Refilled(rule, b, rs[i].at).tokens)) as real
    ensures Admitted(rule, rs, j)
  {
    hide Refilled, Trimmed, Touched, RetryAfter, WaitNanos, After, AfterAll, NoneAdmitted;
    var ip, now := rs[i].ip, rs[j].at;
    var b := BucketOf(rule, Trimmed(After(rule, rs[..i]), rs[i].at), ip, rs[i].at);
    var left := Refilled(rule, b, rs[i].at);
    RefusedLeaves(rule, rs, i);
    RefillWhileRefused(rule, rs, i, j);
    EvictionIsUnobservable(rule, rs, j);
    RefillTwice(rule, left, AfterAll(rule, rs[..j])[ip].last, now);
    LongEnough(rule, left, now);
  }

  // What a refused request leaves behind, in either table.
  lemma RefusedLeaves(rule: Rule, rs: seq<Request>, i: nat)
    requires Sane(rule) && InOrder(rs) && i < |rs| && !Admitted(rule, rs, i)
    ensures var b := BucketOf(rule, Trimmed(After(rule, rs[..i]), rs[i].at), rs[i].ip, rs[i].at);
      var all := AfterAll(rule, rs[..i + 1]);
      rs[i].ip in all && all[rs[i].ip] == Refilled(rule, b, rs[i].at)
      && Refilled(rule, b, rs[i].at).tokens < 1.0 && Refilled(rule, b, rs[i].at).last == rs[i].at
  {
    hide Trimmed, Touched;
    RunsSimulate(rule, rs[..i + 1]);
    var all := AfterAll(rule, rs[..i + 1]);
    assert rs[..i + 1][..i] == rs[..i];
    assert rs[i].ip in After(rule, rs[..i + 1]) by {
      TouchedHas(rule, Trimmed(After(rule, rs[..i]), rs[i].at), rs[i].ip, rs[i].at);
    }
    TouchedHas(rule, Trimmed(After(rule, rs[..i]), rs[i].at), rs[i].ip, rs[i].at);
  }

  lemma TouchedHas(rule: Rule, buckets: map<string, Bucket>, ip: string, now: real)
    ensures ip in Touched(rule, buckets, ip, now)
    ensures Touched(rule, buckets, ip, now)[ip] == Charged(rule, BucketOf(rule, buckets, ip, now), now)
  {
  }

  lemma LongEnough(rule: Rule, left: Bucket, now: real)
    requires Sane(rule) && left.tokens < 1.0
    requires now >= left.last + RetryAfter(WaitNanos(rule, left.tokens)) as real
    ensures Refilled(rule, left, now).tokens >= 1.0
  {
    hide Earned, RetryAfter, WaitNanos;
    RetryAfterSuffices(rule, left.tokens);
    EarnedMore(rule, RetryAfter(WaitNanos(rule, left.tokens)) as real, now - left.last);
  }
}
