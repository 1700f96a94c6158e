// internal/analytics/aggregator.go: the counters, their selections and the civil day of a record.
module Counters {

  import opened Text
  import opened Store
  import opened Tailer

  datatype Counters = Counters(requests: int, blocked: int, bytesIn: int, bytesOut: int)

  const ZERO := Counters(0, 0, 0, 0)

  function Plus(a: Counters, b: Counters): Counters {
    Counters(a.requests + b.requests, a.blocked + b.blocked, a.bytesIn + b.bytesIn, a.bytesOut + b.bytesOut)
  }

  // What one record adds.
  function One(r: Record): Counters {
    Counters(1, if r.blocked then 1 else 0, r.bytesIn, r.bytesOut)
  }

  // The part of the counters the usage ledger keeps.
  datatype Traffic = Traffic(connections: int, bytesIn: int, bytesOut: int)

  const NO_TRAFFIC := Traffic(0, 0, 0)

  function PlusTraffic(a: Traffic, b: Traffic): Traffic {
    Traffic(a.connections + b.connections, a.bytesIn + b.bytesIn, a.bytesOut + b.bytesOut)
  }

  function TrafficOf(c: Counters): Traffic {
    Traffic(c.requests, c.bytesIn, c.bytesOut)
  }

  // ---- selections ----

  datatype DestKey = DestKey(host: string, port: int, protocol: string)

  function KeyOfRecord(r: Record): DestKey {
    DestKey(r.host, r.port, r.protocol)
  }

  function KeyOf(d: DestinationDelta): DestKey {
    DestKey(d.host, d.port, d.protocol)
  }

  // All destinations, or those on one port and protocol.
  datatype Selection = All | At(port: int, protocol: string)

  predicate Selects(sel: Selection, k: DestKey) {
    sel.All? || (k.port == sel.port && k.protocol == sel.protocol)
  }

  function Part(sel: Selection, k: DestKey, c: Counters): Counters {
    if Selects(sel, k) then c else ZERO
  }

  // Any key of a map that has one.
  ghost function Any<K(!new), V>(m: map<K, V>): (k: K)
    requires m != map[]
    ensures k in m
  {
    assert m.Keys != {};
    var k :| k in m.Keys;
    k
  }

  // The counters of the selected destinations, added up.
  ghost function Sum(m: map<DestKey, Counters>, sel: Selection): Counters
    decreases |m|
  {
    if m == map[] then ZERO else
      var k := Any(m);
      Smaller(m, k);
      Plus(Part(sel, k, m[k]), Sum(m - {k}, sel))
  }

  lemma Smaller<K, V>(m: map<K, V>, k: K)
    requires k in m
    ensures |m - {k}| == |m| - 1
  {
    assert (m - {k}).Keys == m.Keys - {k};
    assert |(m - {k}).Keys| == |m.Keys| - 1;
  }

  lemma SumUnfolds(m: map<DestKey, Counters>, sel: Selection)
    requires m != map[]
    ensures Sum(m, sel) == Plus(Part(sel, Any(m), m[Any(m)]), Sum(m - {Any(m)}, sel))
  {
    hide Any, Part;
  }

  // The sum does not depend on the order of summation.
  lemma {:induction false} SumRemove(m: map<DestKey, Counters>, k: DestKey, sel: Selection)
    requires k in m
    ensures Sum(m, sel) == Plus(Part(sel, k, m[k]), Sum(m - {k}, sel))
    decreases |m|
  {
    hide Sum, Any, Part;
    var first := Any(m);
    SumUnfolds(m, sel);
    if first != k {
      Smaller(m, first);
      SumRemove(m - {first}, k, sel);
      Smaller(m, k);
      SumRemove(m - {k}, first, sel);
      assert (m - {first}) - {k} == (m - {k}) - {first};
    }
  }

  lemma SumAdd(m: map<DestKey, Counters>, k: DestKey, c: Counters, sel: Selection)
    ensures Sum(m[k := Plus(if k in m then m[k] else ZERO, c)], sel) == Plus(Sum(m, sel), Part(sel, k, c))
  {
    hide Sum, Selects;
    var n := m[k := Plus(if k in m then m[k] else ZERO, c)];
    SumRemove(n, k, sel);
    assert n - {k} == m - {k};
    if k in m {
      SumRemove(m, k, sel);
    } else {
      assert m - {k} == m;
    }
  }

  lemma {:induction false} SubsetSize<T>(a: set<T>, b: set<T>)
    requires a <= b
    ensures |a| <= |b|
    decreases |a|
  {
    if a != {} {
      var x :| x in a;
      SubsetSize(a - {x}, b - {x});
    }
  }

  // ---- totals of flushed deltas ----

  function DestinationTotal(ds: seq<DestinationDelta>, day: string, sel: Selection): Counters {
    if ds == [] then ZERO else
      var d := ds[|ds| - 1];
      Plus(DestinationTotal(ds[..|ds| - 1], day, sel),
           DestinationPart(d, day, sel))
  }

  function DestinationPart(d: DestinationDelta, day: string, sel: Selection): Counters {
    if d.day == day then Part(sel, KeyOf(d), Counters(d.requests, d.blocked, d.bytesIn, d.bytesOut)) else ZERO
  }

  function UsageTotal(us: seq<UsageDelta>, day: string): Traffic {
    if us == [] then NO_TRAFFIC else
      var u := us[|us| - 1];
      PlusTraffic(UsageTotal(us[..|us| - 1], day), UsagePart(u, day))
  }

  function UsagePart(u: UsageDelta, day: string): Traffic {
    if u.day == day then Traffic(u.connections, u.bytesIn, u.bytesOut) else NO_TRAFFIC
  }

  lemma {:induction false} DestinationTotalConcat(a: seq<DestinationDelta>, b: seq<DestinationDelta>, day: string, sel: Selection)
    ensures DestinationTotal(a + b, day, sel) == Plus(DestinationTotal(a, day, sel), DestinationTotal(b, day, sel))
    decreases |b|
  {
    hide DestinationPart;
    if b == [] {
      assert a + b == a;
    } else {
      assert (a + b)[..|a + b| - 1] == a + b[..|b| - 1];
      DestinationTotalConcat(a, b[..|b| - 1], day, sel);
    }
  }

  lemma {:induction false} UsageTotalConcat(a: seq<UsageDelta>, b: seq<UsageDelta>, day: string)
    ensures UsageTotal(a + b, day) == PlusTraffic(UsageTotal(a, day), UsageTotal(b, day))
    decreases |b|
  {
    hide UsagePart;
    if b == [] {
      assert a + b == a;
    } else {
      assert (a + b)[..|a + b| - 1] == a + b[..|b| - 1];
      UsageTotalConcat(a, b[..|b| - 1], day);
    }
  }

  lemma OneDestination(d: DestinationDelta, day: string, sel: Selection)
    ensures DestinationTotal([d], day, sel) == DestinationPart(d, day, sel)
  {
    hide DestinationPart;
    assert [d][..0] == [];
  }

  lemma OneUsage(u: UsageDelta, day: string)
    ensures UsageTotal([u], day) == UsagePart(u, day)
  {
    hide UsagePart;
    assert [u][..0] == [];
  }

  // ---- days ----

  function Zeros(n: nat): string {
    if n == 0 then "" else "0" + Zeros(n - 1)
  }

  // A decimal padded with zeros to the given width, the sign in front.
  function Pad(i: int, width: nat): (s: string)
    ensures |s| >= width
  {
    var digits := FormatNat(if i < 0 then -i else i);
    (if i < 0 then "-" else "") + PadDigits(digits, width)
  }

  function PadDigits(digits: string, width: nat): (s: string)
    ensures |s| >= width
  {
    ZerosLength(if |digits| < width then width - |digits| else 0);
    Zeros(if |digits| < width then width - |digits| else 0) + digits
  }

  lemma ZerosLength(n: nat)
    ensures |Zeros(n)| == n
  {
  }

  const MILLIS_PER_DAY := 86_400_000

  datatype Date = Date(year: int, month: int, day: int)

  // YYYY-MM-DD.
  function FormatDate(d: Date): (day: string)
    ensures |day| >= 10
  {
    Pad(d.year, 4) + "-" + Pad(d.month, 2) + "-" + Pad(d.day, 2)
  }

  const DAYS_PER_CYCLE := 146_097

  // The year, counted from March, in which a day of a 400-year cycle falls.
  function YearOfCycle(inCycle: int): int {
    (inCycle - inCycle / 1460 + inCycle / 36_524 - inCycle / 146_096) / 365
  }

  function YearStart(year: int): int {
    365 * year + year / 4 - year / 100
  }

  // The month, counted from March, of a day of the year, and the days before a month.
  function MonthOfYear(dayOfYear: int): int {
    (5 * dayOfYear + 2) / 153
  }

  function MonthStart(m: int): int {
    (153 * m + 2) / 5
  }

  // The date of a day counted from 1970-01-01 (proleptic Gregorian; the computation counts from 0000-03-01).
  function DateOf(days: int): Date {
    var z := days + 719_468;
    var inCycle := z % DAYS_PER_CYCLE;
    var yearOfCycle := YearOfCycle(inCycle);
    var dayOfYear := inCycle - YearStart(yearOfCycle);
    var m := MonthOfYear(dayOfYear);
    var month := if m < 10 then m + 3 else m - 9;
    Date(yearOfCycle + 400 * (z / DAYS_PER_CYCLE) + (if month <= 2 then 1 else 0), month, dayOfYear - MonthStart(m) + 1)
  }

  // The UTC calendar day of a Unix time in milliseconds.
  function FormatDay(unixMillis: int): (day: string)
    ensures |day| >= 10
  {
    FormatDate(DateOf(unixMillis / MILLIS_PER_DAY))
  }

  // day[:7].
  function MonthOf(day: string): string {
    if |day| < 7 then day else day[..7]
  }
}
