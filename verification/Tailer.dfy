// internal/analytics/tailer.go and record.go: the reader of complete log lines and its cursor.
// The log is a sequence of characters and offsets count those, as the source counts bytes.
module Tailer {

  import opened Wrappers
  import opened Text
  import opened LogParse

  // ---- record.go ----

  datatype Record = Record(
    unixMillis: int, username: string, protocol: string, host: string, port: int,
    clientIP: string, blocked: bool, bytesIn: int, bytesOut: int)

  function Upper(s: string): string {
    if s == "" then "" else
      [if 'a' <= s[0] <= 'z' then s[0] - 'a' + 'A' else s[0]] + Upper(s[1..])
  }

  function ClassifyProtocol(service: string, requestText: string): string {
    if service == "socks" then "socks5"
    else if "CONNECT" <= Upper(TrimSpace(requestText)) then "https"
    else "http"
  }

  function FromUsage(r: UsageRecord): Record {
    Record(r.unixMillis, r.username, ClassifyProtocol(r.service, r.requestText), r.targetIP, r.targetPort,
           r.clientIP, r.errCode != 0, r.bytesFromTarget, r.bytesToTarget)
  }

  // ---- complete lines ----

  // The position of the first newline of s, or |s|.
  function LineEnd(s: string): (k: nat)
    ensures k <= |s| && (k < |s| ==> s[k] == '\n')
  {
    Until(s, IsNewline)
  }

  lemma LineEndIs(s: string, k: nat)
    requires k <= |s| && Without(s[..k], IsNewline)
    requires k < |s| ==> s[k] == '\n'
    ensures LineEnd(s) == k
  {
    UntilIs(s, IsNewline, k);
  }

  lemma LineEndStops(s: string)
    ensures Without(s[..LineEnd(s)], IsNewline)
  {
  }

  // A record and the log position just after its line.
  datatype Item = Item(rec: Record, end: nat)

  // trimEOL on a line without its newline.
  function TrimCR(s: string): string {
    if s != "" && s[|s| - 1] == '\r' then s[..|s| - 1] else s
  }

  function LineItems(line: string, end: nat): (items: seq<Item>)
    ensures |items| <= 1 && (items != [] ==> items[0].end == end)
  {
    match ParseLogLine(TrimCR(line))
    case Ok(r) => [Item(FromUsage(r), end)]
    case Err(_) => []
  }

  // The records of the complete lines of s, which starts at log position base.
  function Items(s: string, base: nat): seq<Item>
    decreases |s|
  {
    var k := LineEnd(s);
    if k == |s| then [] else LineItems(s[..k], base + k + 1) + Items(s[k + 1..], base + k + 1)
  }

  // The length of the complete lines of s.
  function Complete(s: string): (n: nat)
    ensures n <= |s|
    decreases |s|
  {
    var k := LineEnd(s);
    if k == |s| then 0 else k + 1 + Complete(s[k + 1..])
  }

  function LineCount(s: string): nat {
    if s == "" then 0 else (if s[0] == '\n' then 1 else 0) + LineCount(s[1..])
  }

  function Malformed(s: string): nat
    decreases |s|
  {
    var k := LineEnd(s);
    if k == |s| then 0 else
      (if ParseLogLine(TrimCR(s[..k])).Ok? then 0 else 1) + Malformed(s[k + 1..])
  }

  function Records(items: seq<Item>): (rs: seq<Record>)
    ensures |rs| == |items| && forall i | 0 <= i < |items| :: rs[i] == items[i].rec
  {
    seq(|items|, i requires 0 <= i < |items| => items[i].rec)
  }

  // ---- the tailer ----

  class Tailer {
    var offset: nat
    var malformed: nat
    var sawFile: bool

    // NewTailer: resume only a cursor saved for the same file.
    constructor (path: string, resumePath: string, resumeOffset: nat)
      ensures offset == if resumePath == path then resumeOffset else 0
      ensures malformed == 0 && !sawFile
    {
      offset := if resumePath == path then resumeOffset else 0;
      malformed, sawFile := 0, false;
    }

    // poll: size is what stat reports, content the bytes the reads return, both None on failure.
    // A file shorter than the cursor was rotated and is read from the start.
    method Poll(size: Option<nat>, content: Option<string>) returns (recs: seq<Record>)
      modifies this
      ensures sawFile == (old(sawFile) || size.Some?)
      ensures size.None? || content.None? ==> recs == [] && offset == old(offset) && malformed == old(malformed)
      ensures size.Some? && content.Some? ==>
                var start := if old(offset) > 0 && size.value < old(offset) then 0 else old(offset);
                var unread := if start <= |content.value| then content.value[start..] else "";
                && recs == Records(Items(unread, start))
                && offset == start + Complete(unread)
                && malformed == old(malformed) + Malformed(unread)
    {
      hide ParseLogLine, Items, Complete, Malformed, TrimCR, Records, FromUsage, LineEnd;
      recs := [];
      if size.None? {
        return;
      }
      var pos: nat := offset;
      if pos > 0 && size.value < pos {
        pos := 0;
      }
      sawFile := true;
      if content.None? {
        return;
      }
      var unread := if pos <= |content.value| then content.value[pos..] else "";
      ghost var start: nat, all := pos, unread;
      while true
        invariant sawFile && |unread| <= |all|
        invariant recs + Records(Items(unread, pos)) == Records(Items(all, start))
        invariant pos + Complete(unread) == start + Complete(all)
        invariant malformed + Malformed(unread) == old(malformed) + Malformed(all)
        decreases |unread|
      {
        var k := LineEnd(unread);
        ReadLine(unread, pos);
        if k == |unread| {
          break;
        }
        var line := unread[..k];
        pos := pos + k + 1;
        var parsed := ParseLogLine(TrimCR(line));
        unread := unread[k + 1..];
        ghost var rest := Records(Items(unread, pos));
        if parsed.Ok? {
          assert recs + ([FromUsage(parsed.value)] + rest) == (recs + [FromUsage(parsed.value)]) + rest;
          recs := recs + [FromUsage(parsed.value)];
        } else {
          assert [] + rest == rest;
          malformed := malformed + 1;
        }
      }
      offset := pos;
      assert recs + [] == recs;
    }
  }

  // A complete line is delivered as its record, if it parses, whether it ends in a newline or in a carriage
  // return and a newline.
  lemma LineDelivered(line: string, base: nat)
    requires Without(line, IsNewline) && (line == "" || line[|line| - 1] != '\r')
    ensures forall ending | ending in {"\n", "\r\n"} ::
      Items(line + ending, base)
      == match ParseLogLine(line)
         case Ok(r) => [Item(FromUsage(r), base + |line| + |ending|)]
         case Err(_) => []
  {
    hide ParseLogLine, FromUsage;
    forall ending | ending in {"\n", "\r\n"}
      ensures Items(line + ending, base)
      == match ParseLogLine(line)
         case Ok(r) => [Item(FromUsage(r), base + |line| + |ending|)]
         case Err(_) => []
    {
      var s, k := line + ending, |line| + |ending| - 1;
      assert s[k] == '\n' && (ending == "\r\n" ==> s[|line|] == '\r');
      LineEndIs(s, k);
      assert s[k + 1..] == "" && Items("", base + k + 1) == [];
      assert s[..k] == if ending == "\n" then line else line + "\r";
      assert (line + "\r")[..|line|] == line;
      assert TrimCR(s[..k]) == line;
    }
  }

  // ---- splitting the log at a line boundary ----

  lemma LineEndOfConcat(a: string, b: string)
    requires LineEnd(a) < |a|
    ensures LineEnd(a + b) == LineEnd(a)
  {
    var k := LineEnd(a);
    LineEndStops(a);
    assert (a + b)[..k] == a[..k];
    LineEndIs(a + b, k);
  }

  lemma FirstLine(s: string, base: nat)
    requires LineEnd(s) < |s|
    ensures var k := LineEnd(s);
      Items(s, base) == LineItems(s[..k], base + k + 1) + Items(s[k + 1..], base + k + 1)
  {
    hide LineItems, LineEnd;
  }

  // Text without a newline yields nothing.
  lemma NoLines(t: string, base: nat)
    requires Without(t, IsNewline)
    ensures Complete(t) == 0 && Malformed(t) == 0 && Items(t, base) == []
  {
    hide ParseLogLine, LineItems, LineEnd, IsNewline;
    assert t[..|t|] == t;
    LineEndIs(t, |t|);
  }

  lemma RecordsConcat(a: seq<Item>, b: seq<Item>)
    ensures Records(a + b) == Records(a) + Records(b)
  {
  }

  // What one turn of the read loop contributes.
  lemma ReadLine(s: string, base: nat)
    ensures var k := LineEnd(s);
      if k == |s| then Records(Items(s, base)) == [] && Complete(s) == 0 && Malformed(s) == 0
      else
        var rest, parsed := s[k + 1..], ParseLogLine(TrimCR(s[..k]));
        && Complete(s) == k + 1 + Complete(rest)
        && Records(Items(s, base))
           == (if parsed.Ok? then [FromUsage(parsed.value)] else []) + Records(Items(rest, base + k + 1))
        && Malformed(s) == (if parsed.Ok? then 0 else 1) + Malformed(rest)
  {
    hide ParseLogLine, TrimCR, LineEnd, FromUsage, Items, Records;
    var k := LineEnd(s);
    if k < |s| {
      FirstLine(s, base);
      var line := LineItems(s[..k], base + k + 1);
      RecordsConcat(line, Items(s[k + 1..], base + k + 1));
      assert Records(line) == if ParseLogLine(TrimCR(s[..k])).Ok? then [line[0].rec] else [];
    } else {
      LineEndStops(s);
      assert s[..k] == s;
      NoLines(s, base);
    }
  }

  lemma {:induction false} ItemsSplit(a: string, b: string, base: nat)
    requires Complete(a) == |a|
    ensures Items(a + b, base) == Items(a, base) + Items(b, base + |a|)
    decreases |a|
  {
    hide LineItems, Items, LineEnd;
    if a == "" {
      assert a + b == b;
      NoLines(a, base);
    } else {
      var k := LineEnd(a);
      LineEndOfConcat(a, b);
      var rest := a[k + 1..];
      assert (a + b)[..k] == a[..k] && (a + b)[k + 1..] == rest + b;
      ItemsSplit(rest, b, base + k + 1);
      FirstLine(a, base);
      FirstLine(a + b, base);
    }
  }

  lemma {:induction false} CompleteSplit(a: string, b: string)
    requires Complete(a) == |a|
    ensures Complete(a + b) == |a| + Complete(b)
    decreases |a|
  {
    hide LineEnd;
    if a == "" {
      assert a + b == b;
    } else {
      var k := LineEnd(a);
      LineEndOfConcat(a, b);
      assert (a + b)[k + 1..] == a[k + 1..] + b;
      CompleteSplit(a[k + 1..], b);
    }
  }

  lemma {:induction false} MalformedSplit(a: string, b: string)
    requires Complete(a) == |a|
    ensures Malformed(a + b) == Malformed(a) + Malformed(b)
    decreases |a|
  {
    hide ParseLogLine, TrimCR, LineEnd, FromUsage;
    if a == "" {
      assert a + b == b;
    } else {
      var k := LineEnd(a);
      LineEndOfConcat(a, b);
      assert (a + b)[..k] == a[..k] && (a + b)[k + 1..] == a[k + 1..] + b;
      MalformedSplit(a[k + 1..], b);
    }
  }

  // The complete lines form a prefix that is complete in itself; no newline follows it.
  lemma {:induction false} CompletePrefix(s: string)
    ensures var c := Complete(s);
      Complete(s[..c]) == c && Without(s[c..], IsNewline)
    decreases |s|
  {
    hide LineEnd, Without, IsNewline;
    var k := LineEnd(s);
    LineEndStops(s);
    if k < |s| {
      var rest, c := s[k + 1..], Complete(s);
      var head := s[..c];
      CompletePrefix(rest);
      assert head[..k] == s[..k];
      LineEndIs(head, k);
      assert head[k + 1..] == rest[..c - k - 1];
      assert s[c..] == rest[c - k - 1..];
    } else {
      assert s[0..] == s && s[..k] == s && s[..0] == "";
    }
  }

  lemma {:induction false} LinesAccounted(s: string, base: nat)
    ensures |Items(s, base)| + Malformed(s) == LineCount(s)
    decreases |s|
  {
    hide ParseLogLine, TrimCR, LineEnd, FromUsage, Without, Items;
    var k := LineEnd(s);
    LineEndStops(s);
    SkipToNewline(s, k);
    if k < |s| {
      FirstLine(s, base);
      LinesAccounted(s[k + 1..], base + k + 1);
      assert s[k..][1..] == s[k + 1..];
    } else {
      assert s[..k] == s;
      NoLines(s, base);
    }
  }

  lemma {:induction false} SkipToNewline(s: string, k: nat)
    requires k <= |s| && Without(s[..k], IsNewline)
    ensures LineCount(s) == LineCount(s[k..])
  {
    if k > 0 {
      var rest := s[1..][..k - 1];
      assert !IsNewline(s[..k][0]);
      forall i | 0 <= i < |rest| ensures !IsNewline(rest[i]) {
        assert rest[i] == s[..k][i + 1];
      }
      SkipToNewline(s[1..], k - 1);
      assert s[1..][k - 1..] == s[k..];
    } else {
      assert s[0..] == s;
    }
  }

  // ---- poll schedules over a growing log ----

  datatype Progress = Progress(offset: nat, items: seq<Item>, malformed: nat)

  // One poll that sees the first n bytes of the log.
  function PollAt(log: string, p: Progress, n: nat): Progress
    requires n <= |log|
  {
    if n < p.offset then p else
      var unread := log[..n][p.offset..];
      Progress(p.offset + Complete(unread), p.items + Items(unread, p.offset), p.malformed + Malformed(unread))
  }

  function PollAll(log: string, p: Progress, ns: seq<nat>): Progress
    requires forall i | 0 <= i < |ns| :: ns[i] <= |log|
  {
    if ns == [] then p else
      var last := ns[|ns| - 1];
      PollAt(log, PollAll(log, p, ns[..|ns| - 1]), last)
  }

  function Longest(ns: seq<nat>): nat {
    if ns == [] then 0 else
      var m := Longest(ns[..|ns| - 1]);
      if ns[|ns| - 1] > m then ns[|ns| - 1] else m
  }

  // Having read the first n bytes once, from the start.
  function ReadOnce(log: string, n: nat): Progress
    requires n <= |log|
  {
    Progress(Complete(log[..n]), Items(log[..n], 0), Malformed(log[..n]))
  }

  // One more poll, of whatever length, leaves the reader where one read of the longer prefix would.
  lemma PollExtends(log: string, m: nat, n: nat)
    requires m <= |log| && n <= |log|
    ensures PollAt(log, ReadOnce(log, m), n) == ReadOnce(log, if n > m then n else m)
  {
    hide ParseLogLine, Items, Malformed, Complete;
    var a, c := log[..m], Complete(log[..m]);
    CompletePrefix(a);
    if n >= c {
      var b := log[..n];
      assert b[..c] == a[..c];
      Advance(a, c);
      Advance(b, c);
      NoLines(a[c..], c);
      if n <= m {
        assert b[c..] <= a[c..];
        forall i | 0 <= i < |b[c..]| ensures !IsNewline(b[c..][i]) {
          assert b[c..][i] == a[c..][i];
        }
        NoLines(b[c..], c);
      }
    }
  }

  // Reading on from a line boundary.
  lemma Advance(b: string, c: nat)
    requires c <= |b| && Complete(b[..c]) == c
    ensures Complete(b) == c + Complete(b[c..])
    ensures Items(b, 0) == Items(b[..c], 0) + Items(b[c..], c)
    ensures Malformed(b) == Malformed(b[..c]) + Malformed(b[c..])
  {
    hide Items, Malformed, Complete;
    assert b[..c] + b[c..] == b;
    ItemsSplit(b[..c], b[c..], 0);
    CompleteSplit(b[..c], b[c..]);
    MalformedSplit(b[..c], b[c..]);
  }

  // Poll schedules do not matter: polling at any lengths, in any order, short reads included, delivers
  // exactly the parseable complete lines of the longest prefix seen, in order and once each, leaves the
  // offset just after its last complete line, and accounts for every complete line.
  lemma {:induction false} ScheduleIndependence(log: string, ns: seq<nat>)
    requires forall i | 0 <= i < |ns| :: ns[i] <= |log|
    ensures Longest(ns) <= |log|
    ensures var p := PollAll(log, Progress(0, [], 0), ns);
      && p == ReadOnce(log, Longest(ns))
      && |p.items| + p.malformed == LineCount(log[..Longest(ns)])
    decreases |ns|
  {
    hide ParseLogLine, PollAt, Items, Malformed, LineCount, Complete;
    if ns == [] {
      assert log[..0] == "";
      NoLines("", 0);
      LinesAccounted("", 0);
    } else {
      ScheduleIndependence(log, ns[..|ns| - 1]);
      PollExtends(log, Longest(ns[..|ns| - 1]), ns[|ns| - 1]);
      LinesAccounted(log[..Longest(ns)], 0);
    }
  }

  // Every item ends after the position its poll started from and no later than the new offset.
  lemma {:induction false} ItemEnds(s: string, base: nat)
    ensures forall i | 0 <= i < |Items(s, base)| :: base < Items(s, base)[i].end <= base + Complete(s)
    ensures forall i, j | 0 <= i < j < |Items(s, base)| :: Items(s, base)[i].end < Items(s, base)[j].end
    decreases |s|
  {
    hide LineItems, LineEnd, Items;
    var k := LineEnd(s);
    if k < |s| {
      FirstLine(s, base);
      ItemEnds(s[k + 1..], base + k + 1);
    } else {
      LineEndStops(s);
      assert s[..k] == s;
      NoLines(s, base);
    }
  }

  // The loop of Run over a growing log: poll after poll on one reader, the i-th seeing the first ns[i] bytes,
  // short reads included. The sink collects the records.
  method Follow(t: Tailer, log: string, ns: seq<nat>) returns (recs: seq<Record>)
    requires t.offset == 0 && t.malformed == 0
    requires forall i | 0 <= i < |ns| :: ns[i] <= |log|
    modifies t
    ensures Longest(ns) <= |log|
    ensures var p := ReadOnce(log, Longest(ns));
      recs == Records(p.items) && t.offset == p.offset && t.malformed == p.malformed
  {
    hide ParseLogLine, Items, Malformed, Complete, Records, PollAt, ReadOnce, LineCount;
    recs := [];
    assert Records([]) == [] by {
      NoRecords();
    }
    for i := 0 to |ns|
      invariant var p := PollAll(log, Progress(0, [], 0), ns[..i]);
        recs == Records(p.items) && t.offset == p.offset && t.malformed == p.malformed
      invariant t.offset <= |log|
    {
      assert ns[..i + 1][..i] == ns[..i];
      ghost var p := PollAll(log, Progress(0, [], 0), ns[..i]);
      OnePoll(log, p, ns[i]);
      var more := t.Poll(Some(|log|), Some(log[..ns[i]]));
      ghost var next := PollAt(log, p, ns[i]);
      OffsetWithin(log, ns[..i + 1]);
      recs := recs + more;
    }
    assert ns[..|ns|] == ns;
    ScheduleIndependence(log, ns);
  }

  lemma NoRecords()
    ensures Records([]) == []
  {
  }

  // What Poll promises for a read of n bytes is the step of the schedule.
  lemma OnePoll(log: string, p: Progress, n: nat)
    requires n <= |log|
    ensures var content := log[..n];
      var unread := if p.offset <= |content| then content[p.offset..] else "";
      var next := PollAt(log, p, n);
      && next.offset == p.offset + Complete(unread) && next.malformed == p.malformed + Malformed(unread)
      && Records(next.items) == Records(p.items) + Records(Items(unread, p.offset))
  {
    hide ParseLogLine, Items, Malformed, Complete, Records;
    if n < p.offset {
      NoLines("", p.offset);
      NoRecords();
      assert Records(p.items) + [] == Records(p.items);
    } else {
      RecordsConcat(p.items, Items(log[..n][p.offset..], p.offset));
    }
  }

  lemma OffsetWithin(log: string, ns: seq<nat>)
    requires forall i | 0 <= i < |ns| :: ns[i] <= |log|
    ensures PollAll(log, Progress(0, [], 0), ns).offset <= |log|
  {
    hide PollAll, Complete, Items, Malformed;
    ScheduleIndependence(log, ns);
  }
}
