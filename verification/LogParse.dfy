// internal/engine/threeproxy/logparse.go: the parser of the engine's traffic log, against a printer
// of the record layout that LogFormat in config.go declares. Lines are sequences of characters where Go
// has bytes, and long literals are written in parts, whose characters the verifier can look up.
module LogParse {

  import opened Wrappers
  import opened Text
  import opened Engine

  datatype UsageRecord = UsageRecord(
    unixMillis: int, service: string, port: int, errCode: int, username: string,
    clientIP: string, clientPort: int, targetIP: string, targetPort: int,
    bytesToTarget: int, bytesFromTarget: int, requestText: string)

  datatype ParseError = TooFewFields | BadTimestamp | BadService | BadNumber | BadUsername | BadAddress

  // ---- the parser ----

  predicate IsDot(c: char) {
    c == '.'
  }

  predicate IsColon(c: char) {
    c == ':'
  }

  // int64 arithmetic wraps.
  function Wrap64(i: int): int {
    (i + 0x8000_0000_0000_0000) % 0x1_0000_0000_0000_0000 - 0x8000_0000_0000_0000
  }

  // A fraction of n digits, scaled to thousandths.
  function Scale(m: int, n: nat): int
    decreases 3 - n
  {
    if n >= 3 then m else Scale(m * 10, n + 1)
  }

  function MillisOf(s: string): int {
    var t := if |s| > 3 then s[..3] else s;
    match ParseInt64(t)
    case None => 0
    case Some(m) => Scale(m, |t|)
  }

  // The two parts of a time field.
  function SecsOf(s: string): Option<int> {
    ParseInt64(s[..Until(s, IsDot)])
  }

  function FractionOf(s: string): int {
    var dot := Until(s, IsDot);
    if dot < |s| then MillisOf(s[dot + 1..]) else 0
  }

  function UnixMillis(s: string): Result<int, ParseError> {
    match SecsOf(s)
    case None => Err(BadTimestamp)
    case Some(secs) => if secs < 0 then Err(BadTimestamp) else Ok(Wrap64(secs * 1000 + FractionOf(s)))
  }

  // strings.LastIndexByte(s, '.'), or |s| when there is none.
  function LastDot(s: string): (n: nat)
    ensures n <= |s|
    ensures n < |s| ==> s[n] == '.' && Without(s[n + 1..], IsDot)
    ensures n == |s| ==> Without(s, IsDot)
  {
    if s == "" then 0 else
      var n := LastDot(s[1..]);
      assert s == [s[0]] + s[1..];
      if n < |s| - 1 then n + 1 else if s[0] == '.' then 0 else |s|
  }

  function Service(s: string): Result<(string, int), ParseError> {
    var dot := LastDot(s);
    if dot == 0 || dot >= |s| - 1 then Err(BadService) else
      match ParseInt64(s[dot + 1..])
      case None => Err(BadService)
      case Some(port) => if 1 <= port <= 65535 then Ok((s[..dot], port)) else Err(BadService)
  }

  // strings.Index(s, "]:"), or |s| when there is none.
  function BracketEnd(s: string): (n: nat)
    ensures n <= |s|
    ensures n < |s| ==> n + 1 < |s| && s[n] == ']' && s[n + 1] == ':'
    ensures forall i | 0 <= i < n && i + 1 < |s| :: !(s[i] == ']' && s[i + 1] == ':')
  {
    if s == "" || (|s| >= 2 && s[0] == ']' && s[1] == ':') then 0 else
      var n := 1 + BracketEnd(s[1..]);
      assert s == [s[0]] + s[1..];
      n
  }

  predicate NoQuotes(s: string) {
    forall i | 0 <= i < |s| :: s[i] != ' ' && s[i] != '\t' && s[i] != '"' && s[i] != '\''
  }

  function HostPort(s: string): Result<(string, int), ParseError> {
    var split := if s != "" && s[0] == '[' then BracketEnd(s) + 1 else Until(s, IsColon);
    if split >= |s| then Err(BadAddress) else
      var host := s[..split];
      match ParseInt64(s[split + 1..])
      case None => Err(BadAddress)
      case Some(port) =>
        if 0 <= port <= 65535 && host != "" && NoQuotes(host) then Ok((host, port)) else Err(BadAddress)
  }

  function Number(s: string): Result<int, ParseError> {
    match ParseInt64(s)
    case None => Err(BadNumber)
    case Some(v) => Ok(v)
  }

  function ByteCount(s: string): Result<int, ParseError> {
    match ParseInt64(s)
    case None => Err(BadNumber)
    case Some(v) => if v < 0 then Err(BadNumber) else Ok(v)
  }

  predicate LoggedUsername(name: string) {
    name == "-" || ValidUsername(name)
  }

  function ParseFields(fields: seq<string>): Result<UsageRecord, ParseError> {
    if |fields| < 9 then Err(TooFewFields) else
      var ts :- UnixMillis(fields[0]);
      var svc :- Service(fields[1]);
      var errCode :- Number(fields[2]);
      if !LoggedUsername(fields[3]) then Err(BadUsername) else
        var client :- HostPort(fields[4]);
        var target :- HostPort(fields[5]);
        var sent :- ByteCount(fields[6]);
        var received :- ByteCount(fields[7]);
        var _ :- Number(fields[8]);
        Ok(UsageRecord(ts, svc.0, svc.1, errCode, fields[3], client.0, client.1, target.0, target.1,
                       sent, received, Unwords(fields[9..])))
  }

  function ParseLogLine(line: string): Result<UsageRecord, ParseError> {
    ParseFields(Fields(line))
  }

  // parseUnixMillis with its scaling loop.
  method ParseUnixMillis(s: string) returns (r: Result<int, ParseError>)
    ensures r == UnixMillis(s)
  {
    var dot := Until(s, IsDot);
    var secs := ParseInt64(s[..dot]);
    if secs.None? || secs.value < 0 {
      return Err(BadTimestamp);
    }
    var millis := 0;
    var millisStr := if dot < |s| then s[dot + 1..] else "";
    if millisStr != "" {
      if |millisStr| > 3 {
        millisStr := millisStr[..3];
      }
      var parsed := ParseInt64(millisStr);
      if parsed.Some? {
        var m, i := parsed.value, |millisStr|;
        while i < 3
          invariant |millisStr| <= i <= 3 && Scale(m, i) == Scale(parsed.value, |millisStr|)
        {
          m, i := m * 10, i + 1;
        }
        millis := m;
      }
    }
    return Ok(Wrap64(secs.value * 1000 + millis));
  }

  // ---- the printer ----

  function Pad3(n: nat): string
    requires n < 1000
  {
    ['0' + (n / 100) as char, '0' + (n / 10 % 10) as char, '0' + (n % 10) as char]
  }

  function PrintTime(t: nat): string {
    FormatNat(t / 1000) + "." + Pad3(t % 1000)
  }

  // The nine fields before the request text.
  function PrintFields(r: UsageRecord, hops: int): seq<string>
    requires r.unixMillis >= 0
  {
    [PrintTime(r.unixMillis), r.service + "." + FormatInt(r.port), FormatInt(r.errCode), r.username,
     r.clientIP + ":" + FormatInt(r.clientPort), r.targetIP + ":" + FormatInt(r.targetPort),
     FormatInt(r.bytesToTarget), FormatInt(r.bytesFromTarget), FormatInt(hops)]
  }

  function PrintLine(r: UsageRecord, hops: int): string
    requires r.unixMillis >= 0
  {
    Unwords(PrintFields(r, hops)) + if r.requestText == "" then "" else " " + r.requestText
  }

  // ---- well-formed records ----

  // A host the log can carry: bracketed with its only "]:" at the end, or free of colons.
  predicate GoodHost(h: string) {
    && IsWord(h) && NoQuotes(h)
    && (h[0] == '[' ==> h[|h| - 1] == ']' && forall i | 0 <= i < |h| - 1 :: !(h[i] == ']' && h[i + 1] == ':'))
    && (h[0] != '[' ==> Without(h, IsColon))
  }

  predicate Normal(text: string) {
    Unwords(Fields(text)) == text
  }

  predicate WellFormed(r: UsageRecord) {
    && 0 <= r.unixMillis <= MAX_INT64
    && IsWord(r.service) && 1 <= r.port <= 65535
    && IsInt64(r.errCode)
    && LoggedUsername(r.username)
    && GoodHost(r.clientIP) && 0 <= r.clientPort <= 65535
    && GoodHost(r.targetIP) && 0 <= r.targetPort <= 65535
    && 0 <= r.bytesToTarget <= MAX_INT64 && 0 <= r.bytesFromTarget <= MAX_INT64
    && Normal(r.requestText)
  }

  // ---- field by field ----

  lemma ParseThreeDigits(n: nat)
    requires n < 1000
    ensures MillisOf(Pad3(n)) == n
  {
    var s := Pad3(n);
    assert s[..2][..1][..0] == "";
    assert s[..2][..1] == [s[0]] && s[..2] == [s[0], s[1]];
    assert ParseNat(s[..2][..1]) == n / 100;
    assert ParseNat(s[..2]) == n / 10;
    assert ParseNat(s) == n;
  }

  lemma DigitsHaveNoDots(s: string)
    requires AllDigits(s)
    ensures Without(s, IsDot) && Without(s, IsColon) && Without(s, IsSpace)
  {
  }

  lemma TimeReadsBack(t: nat)
    requires t <= MAX_INT64
    ensures UnixMillis(PrintTime(t)) == Ok(t) && IsWord(PrintTime(t))
  {
    hide MillisOf, FormatNat, ParseInt64;
    var secs := FormatNat(t / 1000);
    var s := PrintTime(t);
    ParseFormatInt(t / 1000);
    assert FormatInt(t / 1000) == secs;
    DigitsHaveNoDots(secs);
    assert s[..|secs|] == secs && s[|secs| + 1..] == Pad3(t % 1000);
    UntilIs(s, IsDot, |secs|);
    ParseThreeDigits(t % 1000);
  }

  lemma {:induction false} LastDotIs(name: string, digits: string)
    requires AllDigits(digits)
    ensures LastDot(name + "." + digits) == |name|
  {
    var s := name + "." + digits;
    if name == "" {
      DigitsHaveNoDots(digits);
      assert s[1..] == digits;
    } else {
      assert s[1..] == name[1..] + "." + digits;
      LastDotIs(name[1..], digits);
    }
  }

  lemma ServiceReadsBack(name: string, port: int)
    requires IsWord(name) && 1 <= port <= 65535
    ensures Service(name + "." + FormatInt(port)) == Ok((name, port)) && IsWord(name + "." + FormatInt(port))
  {
    hide ParseInt64, FormatNat, LastDot;
    var s := name + "." + FormatInt(port);
    LastDotIs(name, FormatInt(port));
    ParseFormatInt(port);
    DigitsHaveNoDots(FormatInt(port));
    assert s[..|name|] == name && s[|name| + 1..] == FormatInt(port);
  }

  lemma BracketEndIs(h: string, rest: string)
    requires GoodHost(h) && h[0] == '['
    ensures BracketEnd(h + ":" + rest) == |h| - 1
  {
    var s := h + ":" + rest;
    assert s[|h| - 1] == ']' && s[|h| - 1 + 1] == ':';
    assert forall i | 0 <= i < |h| :: s[i] == h[i];
  }

  lemma HostPortReadsBack(h: string, port: int)
    requires GoodHost(h) && 0 <= port <= 65535
    ensures HostPort(h + ":" + FormatInt(port)) == Ok((h, port)) && IsWord(h + ":" + FormatInt(port))
  {
    hide ParseInt64, FormatNat, NoQuotes, BracketEnd, Until;
    var digits := FormatInt(port);
    var s := h + ":" + digits;
    ParseFormatInt(port);
    DigitsHaveNoDots(digits);
    assert s[..|h|] == h && s[|h| + 1..] == digits;
    if h[0] == '[' {
      BracketEndIs(h, digits);
    } else {
      UntilIs(s, IsColon, |h|);
    }
  }

  lemma NumberReadsBack(i: int)
    requires IsInt64(i)
    ensures Number(FormatInt(i)) == Ok(i) && IsWord(FormatInt(i))
    ensures i >= 0 ==> ByteCount(FormatInt(i)) == Ok(i)
  {
    ParseFormatInt(i);
    if i < 0 {
      DigitsHaveNoDots(FormatNat(-i));
    } else {
      DigitsHaveNoDots(FormatNat(i));
    }
  }

  lemma {:induction false} UnwordsAppend(a: seq<string>, b: seq<string>)
    requires a != []
    ensures Unwords(a + b) == Unwords(a) + if b == [] then "" else " " + Unwords(b)
  {
    if b == [] {
      assert a + b == a;
    } else if |a| == 1 {
      assert (a + b)[1..] == b;
    } else {
      assert (a + b)[1..] == a[1..] + b;
      UnwordsAppend(a[1..], b);
    }
  }

  lemma PrintedLineFields(r: UsageRecord, hops: int)
    requires WellFormed(r) && IsInt64(hops)
    ensures Fields(PrintLine(r, hops)) == PrintFields(r, hops) + Fields(r.requestText)
  {
    hide PrintTime, GoodHost, LoggedUsername, UnixMillis, Service, HostPort, Number, ByteCount, FormatInt, Fields, IsWord;
    var fs, text := PrintFields(r, hops), Fields(r.requestText);
    TimeReadsBack(r.unixMillis);
    ServiceReadsBack(r.service, r.port);
    NumberReadsBack(r.errCode);
    UsernameIsWord(r.username);
    HostPortReadsBack(r.clientIP, r.clientPort);
    HostPortReadsBack(r.targetIP, r.targetPort);
    NumberReadsBack(r.bytesToTarget);
    NumberReadsBack(r.bytesFromTarget);
    NumberReadsBack(hops);
    FieldsAreWords(r.requestText);
    NoFields();
    UnwordsAppend(fs, text);
    FieldsOfUnwords(fs + text);
  }

  lemma NoFields()
    ensures Fields("") == []
  {
  }

  lemma UsernameIsWord(name: string)
    requires LoggedUsername(name)
    ensures IsWord(name)
  {
  }

  // ---- main results ----

  // Parsing a printed record gives the record back.
  lemma ParserUndoesPrinter(r: UsageRecord, hops: int)
    requires WellFormed(r) && IsInt64(hops)
    ensures ParseLogLine(PrintLine(r, hops)) == Ok(r)
  {
    hide PrintTime, GoodHost, LoggedUsername, UnixMillis, Service, HostPort, Number, ByteCount, FormatInt, PrintLine, Fields;
    var fs := PrintFields(r, hops) + Fields(r.requestText);
    PrintedLineFields(r, hops);
    TimeReadsBack(r.unixMillis);
    ServiceReadsBack(r.service, r.port);
    NumberReadsBack(r.errCode);
    HostPortReadsBack(r.clientIP, r.clientPort);
    HostPortReadsBack(r.targetIP, r.targetPort);
    NumberReadsBack(r.bytesToTarget);
    NumberReadsBack(r.bytesFromTarget);
    NumberReadsBack(hops);
    assert fs[9..] == Fields(r.requestText);
  }

  lemma AcceptedHost(s: string)
    requires IsWord(s) && HostPort(s).Ok?
    ensures GoodHost(HostPort(s).value.0) && 0 <= HostPort(s).value.1 <= 65535
  {
    if s[0] == '[' {
      var n := BracketEnd(s);
      var h := s[..n + 1];
      assert h[0] == '[' && h[|h| - 1] == ']';
    } else {
      var k := Until(s, IsColon);
      assert s[..k][0] == s[0];
    }
  }

  lemma AcceptedService(s: string)
    requires IsWord(s) && Service(s).Ok?
    ensures IsWord(Service(s).value.0) && 1 <= Service(s).value.1 <= 65535
  {
  }

  // A fraction with a sign can make the zeroth second negative.
  predicate BelowZero(s: string) {
    SecsOf(s) == Some(0) && FractionOf(s) < 0
  }

  // Seconds so large that the multiplication by 1000 leaves the 64-bit range and comes back negative.
  predicate WrapsNegative(s: string) {
    SecsOf(s).Some? &&
    var total := SecsOf(s).value * 1000 + FractionOf(s);
    total > MAX_INT64 && total % 0x1_0000_0000_0000_0000 >= 0x8000_0000_0000_0000
  }

  lemma FractionRange(s: string)
    ensures -99 <= FractionOf(s) <= 999
  {
    hide Until;
    var dot := Until(s, IsDot);
    if dot < |s| {
      MillisRange(s[dot + 1..]);
    }
  }

  lemma MillisRange(s: string)
    ensures -99 <= MillisOf(s) <= 999
  {
    hide ParseInt64;
    var t := if |s| > 3 then s[..3] else s;
    ShortNumber(t);
    if ParseInt64(t).Some? {
      var m := ParseInt64(t).value;
      assert Scale(m, |t|) == if |t| == 1 then 100 * m else if |t| == 2 then 10 * m else m;
    }
  }

  // A number of up to three characters, one of which may be a sign.
  lemma ShortNumber(t: string)
    requires |t| <= 3
    ensures ParseInt64(t).Some? ==> t != "" && -99 <= ParseInt64(t).value <= 999
    ensures ParseInt64(t).Some? && |t| == 1 ==> 0 <= ParseInt64(t).value <= 9
    ensures ParseInt64(t).Some? && |t| == 2 ==> -9 <= ParseInt64(t).value <= 99
  {
    if AllDigits(t) {
      DigitsBound(t);
    }
    if t != "" && AllDigits(t[1..]) {
      DigitsBound(t[1..]);
    }
  }

  lemma {:induction false} DigitsBound(t: string)
    requires AllDigits(t) && |t| <= 3
    ensures ParseNat(t) < if |t| == 0 then 1 else if |t| == 1 then 10 else if |t| == 2 then 100 else 1000
    decreases |t|
  {
    if t != "" {
      DigitsBound(t[..|t| - 1]);
    }
  }

  // An accepted time is negative exactly when the field is below zero or wraps.
  lemma NegativeExactlyWhen(s: string)
    requires UnixMillis(s).Ok?
    ensures UnixMillis(s).value < 0 <==> BelowZero(s) || WrapsNegative(s)
  {
    hide SecsOf, FractionOf;
    FractionRange(s);
    WrapSign(SecsOf(s).value * 1000 + FractionOf(s));
  }

  lemma WrapSign(total: int)
    requires total >= -99
    ensures Wrap64(total) < 0 <==> total < 0 || (total > MAX_INT64 && total % 0x1_0000_0000_0000_0000 >= 0x8000_0000_0000_0000)
  {
    var m := total % 0x1_0000_0000_0000_0000;
    assert (total + 0x8000_0000_0000_0000) % 0x1_0000_0000_0000_0000
        == if m >= 0x8000_0000_0000_0000 then m - 0x8000_0000_0000_0000 else m + 0x8000_0000_0000_0000;
  }

  // An accepted time is the one the field spells exactly when that fits 64 bits.
  lemma TimeIsExactWhen(s: string)
    requires UnixMillis(s).Ok?
    ensures var total := SecsOf(s).value * 1000 + FractionOf(s);
      UnixMillis(s).value == total <==> total <= MAX_INT64
  {
    hide SecsOf, FractionOf;
    FractionRange(s);
  }

  // Only well-formed records come out of the parser, except through the time field: a record is well
  // formed exactly when that field is neither below zero nor wraps to a negative time.
  lemma AcceptedExactlyWellFormed(line: string)
    requires ParseLogLine(line).Ok?
    ensures |Fields(line)| >= 9
    ensures WellFormed(ParseLogLine(line).value) <==> !BelowZero(Fields(line)[0]) && !WrapsNegative(Fields(line)[0])
  {
    RecordIsWellFormedWhen(line);
    TimeField(line);
    NegativeExactlyWhen(Fields(line)[0]);
  }

  lemma TimeField(line: string)
    requires ParseLogLine(line).Ok?
    ensures |Fields(line)| >= 9 && UnixMillis(Fields(line)[0]) == Ok(ParseLogLine(line).value.unixMillis)
  {
    hide Service, HostPort, UnixMillis, Number, ByteCount, ValidUsername, Fields;
  }

  lemma RecordIsWellFormedWhen(line: string)
    requires ParseLogLine(line).Ok?
    ensures WellFormed(ParseLogLine(line).value) <==> ParseLogLine(line).value.unixMillis >= 0
  {
    hide GoodHost, Service, HostPort, UnixMillis, IsWord, ValidUsername, Number, ByteCount, Normal, Fields;
    var fs := Fields(line);
    FieldsAreWords(line);
    assert fs[1] in fs && fs[4] in fs && fs[5] in fs;
    AcceptedTime(fs[0]);
    AcceptedService(fs[1]);
    AcceptedNumbers(fs[2]);
    AcceptedHost(fs[4]);
    AcceptedHost(fs[5]);
    AcceptedNumbers(fs[6]);
    AcceptedNumbers(fs[7]);
    assert forall w | w in fs[9..] :: w in fs;
    WordsAreNormal(fs[9..]);
  }

  lemma AcceptedTime(s: string)
    requires UnixMillis(s).Ok?
    ensures IsInt64(UnixMillis(s).value)
  {
    hide MillisOf, ParseInt64;
  }

  lemma AcceptedNumbers(s: string)
    ensures Number(s).Ok? ==> IsInt64(Number(s).value)
    ensures ByteCount(s).Ok? ==> 0 <= ByteCount(s).value <= MAX_INT64
  {
  }

  lemma WordsAreNormal(ws: seq<string>)
    requires forall w | w in ws :: IsWord(w)
    ensures Normal(Unwords(ws))
  {
    FieldsOfUnwords(ws);
  }

  // Parsing is canonical: reprinting an accepted record with a non-negative time and parsing again
  // changes nothing.
  lemma ReparseIsStable(line: string, hops: int)
    requires ParseLogLine(line).Ok? && ParseLogLine(line).value.unixMillis >= 0 && IsInt64(hops)
    ensures ParseLogLine(PrintLine(ParseLogLine(line).value, hops)) == ParseLogLine(line)
  {
    hide ParseLogLine, PrintLine, WellFormed;
    RecordIsWellFormedWhen(line);
    ParserUndoesPrinter(ParseLogLine(line).value, hops);
  }

  // An accepted line never attributes traffic to a name outside the username policy.
  lemma AcceptedNamesAreValid(line: string)
    requires ParseLogLine(line).Ok?
    ensures ParseLogLine(line).value.username == "-" || ValidUsername(ParseLogLine(line).value.username)
    ensures |Fields(line)| >= 9 && ParseLogLine(line).value.username == Fields(line)[3]
  {
    hide Fields, UnixMillis, Service, HostPort;
  }

  // The fraction accepts a sign, so a time field can be negative,
  lemma SignedFraction()
    ensures UnixMillis("0.-5") == Ok(-50) && IsWord("0.-5")
  {
    UntilIs("0.-5", IsDot, 1);
    assert "0.-5"[..1] == "0" && "0.-5"[2..] == "-5" && "-5"[1..] == "5";
    assert ParseNat("0"[..0]) == 0 && ParseNat("5"[..0]) == 0;
    assert ParseInt64("-5") == Some(-5);
    assert Scale(-5, 2) == -50;
  }

  // and so can the time of an accepted line.
  lemma NegativeTimeAccepted(r: UsageRecord, hops: int)
    requires WellFormed(r) && IsInt64(hops)
    ensures ParseLogLine(Unwords(["0.-5"] + PrintFields(r, hops)[1..])) == Ok(r.(unixMillis := -50, requestText := ""))
  {
    hide PrintTime, GoodHost, LoggedUsername, UnixMillis, Service, HostPort, Number, ByteCount, FormatInt, Fields;
    var fs := ["0.-5"] + PrintFields(r, hops)[1..];
    SignedFraction();
    ServiceReadsBack(r.service, r.port);
    NumberReadsBack(r.errCode);
    UsernameIsWord(r.username);
    HostPortReadsBack(r.clientIP, r.clientPort);
    HostPortReadsBack(r.targetIP, r.targetPort);
    NumberReadsBack(r.bytesToTarget);
    NumberReadsBack(r.bytesFromTarget);
    NumberReadsBack(hops);
    FieldsOfUnwords(fs);
    assert fs[9..] == [];
  }

  // ---- the other way to a negative time ----

  // Any printed time whose milliseconds leave the 64-bit range is accepted as what they wrap to.
  lemma LargeTimeWraps(secs: nat, ms: nat)
    requires secs <= MAX_INT64 && ms < 1000
    ensures var s := FormatNat(secs) + "." + Pad3(ms);
      SecsOf(s) == Some(secs) && FractionOf(s) == ms && UnixMillis(s) == Ok(Wrap64(secs * 1000 + ms)) && IsWord(s)
  {
    hide MillisOf, FormatNat, ParseInt64;
    var digits := FormatNat(secs);
    var s := digits + "." + Pad3(ms);
    ParseFormatInt(secs);
    assert FormatInt(secs) == digits;
    DigitsHaveNoDots(digits);
    assert s[..|digits|] == digits && s[|digits| + 1..] == Pad3(ms);
    UntilIs(s, IsDot, |digits|);
    ParseThreeDigits(ms);
  }

  const FAR_FUTURE := 9_223_372_036_854_776

  lemma FarFutureDigits()
    ensures FormatNat(FAR_FUTURE) == "9223" + "3720" + "3685" + "4776"
  {
    hide FormatNat;
    FormatFour(9223_3720_3685, "4776", 4776);
    FormatFour(9223_3720, "3685", 3685);
    FormatFour(9223, "3720", 3720);
    SmallFour();
  }

  lemma SmallFour()
    ensures FormatNat(9223) == "9223"
  {
    assert FormatNat(9) == "9" && FormatNat(92) == "92" && FormatNat(922) == "922";
  }

  lemma FormatFour(n: nat, b: string, v: nat)
    requires n > 0 && v < 10_000
    requires b == ['0' + (v / 1000) as char, '0' + (v / 100 % 10) as char, '0' + (v / 10 % 10) as char, '0' + (v % 10) as char]
    ensures FormatNat(10_000 * n + v) == FormatNat(n) + b
  {
    hide FormatNat;
    var p1, p2, p3 := 10 * n + v / 1000, 100 * n + v / 100, 1000 * n + v / 10;
    assert p2 == 10 * p1 + v / 100 % 10 && p3 == 10 * p2 + v / 10 % 10 && 10_000 * n + v == 10 * p3 + v % 10;
    LastDigit(n, v / 1000);
    LastDigit(p1, v / 100 % 10);
    LastDigit(p2, v / 10 % 10);
    LastDigit(p3, v % 10);
    assert b == [b[0]] + [b[1]] + [b[2]] + [b[3]];
  }

  lemma LastDigit(n: nat, d: nat)
    requires n > 0 && d < 10
    ensures FormatNat(10 * n + d) == FormatNat(n) + ['0' + d as char]
  {
  }

  lemma FarFutureWraps(s: string)
    requires SecsOf(s) == Some(FAR_FUTURE) && FractionOf(s) == 0
    ensures UnixMillis(s) == Ok(-9_223_372_036_854_775_616) && WrapsNegative(s) && !BelowZero(s)
  {
    hide SecsOf, FractionOf;
  }

  // The time field 9223372036854776.000 is accepted as a time some 292 million years before 1970.
  lemma FarFutureIsFarPast()
    ensures var s := "9223" + "3720" + "3685" + "4776" + "." + "000";
      UnixMillis(s) == Ok(-9_223_372_036_854_775_616) && WrapsNegative(s) && !BelowZero(s)
  {
    assert Pad3(0) == "000";
    hide SecsOf, FractionOf, UnixMillis, FormatNat, Pad3, IsWord, WrapsNegative, BelowZero, Wrap64;
    FarFutureDigits();
    LargeTimeWraps(FAR_FUTURE, 0);
    FarFutureWraps(FormatNat(FAR_FUTURE) + "." + Pad3(0));
  }

  // Milliseconds must be printed with three digits: without padding they read back only from 100 up,
  // or as zero.
  lemma UnpaddedMillis(ms: nat)
    requires ms < 1000
    ensures MillisOf(FormatNat(ms)) == ms <==> ms == 0 || ms >= 100
  {
    ParseFormatInt(ms);
    if ms < 10 {
      assert |FormatNat(ms)| == 1 && Scale(ms, 1) == 100 * ms;
    } else if ms < 100 {
      assert |FormatNat(ms)| == 2 && Scale(ms, 2) == 10 * ms;
    } else {
      assert |FormatNat(ms / 10)| == 2;
    }
  }
}
