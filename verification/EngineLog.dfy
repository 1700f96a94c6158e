// From the log format in a rendered configuration to the record the accounting counts: what the engine
// writes under that format (the directives listed at internal/engine/threeproxy/config.go) is parsed back and
// becomes the monitoring record of internal/analytics/record.go.
module EngineLog {

  import opened Wrappers
  import opened Text
  import opened Engine
  import opened Config
  import opened ConfigReader
  import LogParse
  import Tailer

  // One served request as the engine knows it; uploaded went to the target, downloaded came from it.
  datatype Served = Served(
    millis: nat, service: string, port: int, errCode: int, user: string, client: string, clientPort: int,
    target: string, targetPort: int, uploaded: int, downloaded: int, hops: int, request: string)

  // What a directive of the format stands for.
  function Value(directive: char, e: Served): string {
    match directive
    case 't' => FormatNat(e.millis / 1000)
    case '.' => LogParse.Pad3(e.millis % 1000)
    case 'N' => e.service
    case 'p' => FormatInt(e.port)
    case 'E' => FormatInt(e.errCode)
    case 'U' => e.user
    case 'C' => e.client
    case 'c' => FormatInt(e.clientPort)
    case 'R' => e.target
    case 'r' => FormatInt(e.targetPort)
    case 'O' => FormatInt(e.uploaded)
    case 'I' => FormatInt(e.downloaded)
    case 'h' => FormatInt(e.hops)
    case 'T' => e.request
    case _ => ""
  }

  // The format with its directives replaced.
  function Expand(format: string, e: Served): string {
    if format == "" then ""
    else if format[0] == '%' && |format| >= 2 then Value(format[1], e) + Expand(format[2..], e)
    else [format[0]] + Expand(format[1..], e)
  }

  // A leading G asks for Greenwich time and is not written.
  function LogLine(format: string, e: Served): string {
    Expand(if format != "" && format[0] == 'G' then format[1..] else format, e)
  }

  predicate Loggable(e: Served) {
    && e.millis <= MAX_INT64
    && IsWord(e.service) && 1 <= e.port <= 65535
    && IsInt64(e.errCode) && IsInt64(e.hops)
    && LogParse.LoggedUsername(e.user)
    && LogParse.GoodHost(e.client) && 0 <= e.clientPort <= 65535
    && LogParse.GoodHost(e.target) && 0 <= e.targetPort <= 65535
    && 0 <= e.uploaded <= MAX_INT64 && 0 <= e.downloaded <= MAX_INT64
    && LogParse.Normal(e.request)
  }

  // ---- the format, word by word ----

  lemma Directive(d: char, rest: string, e: Served)
    ensures Expand(['%', d] + rest, e) == Value(d, e) + Expand(rest, e)
  {
    var f := ['%', d] + rest;
    assert f[2..] == rest;
  }

  lemma Literal(c: char, rest: string, e: Served)
    requires c != '%'
    ensures Expand([c] + rest, e) == [c] + Expand(rest, e)
  {
    var f := [c] + rest;
    assert f[1..] == rest;
  }

  lemma OneWord(d: char, rest: string, e: Served)
    ensures Expand(['%', d, ' '] + rest, e) == Value(d, e) + (" " + Expand(rest, e))
  {
    hide Expand, Value;
    Literal(' ', rest, e);
    Directive(d, " " + rest, e);
    assert ['%', d, ' '] + rest == ['%', d] + (" " + rest);
  }

  lemma PairWord(a: char, mark: char, b: char, rest: string, e: Served)
    requires mark != '%'
    ensures Expand(['%', a, mark, '%', b, ' '] + rest, e)
            == (Value(a, e) + [mark] + Value(b, e)) + (" " + Expand(rest, e))
  {
    hide Expand, Value;
    OneWord(b, rest, e);
    var tail := ['%', b, ' '] + rest;
    Literal(mark, tail, e);
    Directive(a, [mark] + tail, e);
    assert ['%', a, mark, '%', b, ' '] + rest == ['%', a] + ([mark] + tail);
    var v, x, y := Value(a, e), Value(b, e), " " + Expand(rest, e);
    assert v + ([mark] + (x + y)) == (v + [mark] + x) + y;
  }

  // The last words of the format.
  lemma LastWords(e: Served)
    ensures Expand("%O %I %h %T", e)
            == Value('O', e) + (" " + (Value('I', e) + (" " + (Value('h', e) + (" " + Value('T', e))))))
  {
    hide Value;
    Directive('T', "", e);
    assert Expand("", e) == "";
    hide Expand;
    assert "%T" == ['%', 'T'] + "";
    OneWord('h', "%T", e);
    OneWord('I', "%h %T", e);
    OneWord('O', "%I %h %T", e);
    assert ['%', 'h', ' '] + "%T" == "%h %T";
    assert ['%', 'I', ' '] + "%h %T" == "%I %h %T";
    assert ['%', 'O', ' '] + "%I %h %T" == "%O %I %h %T";
    assert Value('T', e) + "" == Value('T', e);
  }

  lemma MiddleWords(e: Served)
    ensures Expand("%C:%c %R:%r %O %I %h %T", e)
            == (Value('C', e) + ":" + Value('c', e)) + (" " + ((Value('R', e) + ":" + Value('r', e))
               + (" " + Expand("%O %I %h %T", e))))
  {
    hide Value, Expand;
    var last := "%O %I %h %T";
    PairWord('R', ':', 'r', last, e);
    PairWord('C', ':', 'c', "%R:%r " + last, e);
    assert ['%', 'R', ':', '%', 'r', ' '] + last == "%R:%r " + last;
    assert ['%', 'C', ':', '%', 'c', ' '] + ("%R:%r " + last) == "%C:%c %R:%r %O %I %h %T";
  }

  lemma FirstWords(rest: string, e: Served)
    ensures Expand("%t.%. %N.%p %E %U " + rest, e)
            == (Value('t', e) + "." + Value('.', e)) + (" " + ((Value('N', e) + "." + Value('p', e))
               + (" " + (Value('E', e) + (" " + (Value('U', e) + (" " + Expand(rest, e))))))))
  {
    hide Value, Expand;
    var u := "%U " + rest;
    OneWord('U', rest, e);
    assert ['%', 'U', ' '] + rest == u;
    OneWord('E', u, e);
    assert ['%', 'E', ' '] + u == "%E " + u;
    PairWord('N', '.', 'p', "%E " + u, e);
    assert ['%', 'N', '.', '%', 'p', ' '] + ("%E " + u) == "%N.%p " + ("%E " + u);
    PairWord('t', '.', '.', "%N.%p " + ("%E " + u), e);
    assert ['%', 't', '.', '%', '.', ' '] + ("%N.%p " + ("%E " + u)) == "%t.%. %N.%p %E %U " + rest;
  }

  // ---- the line ----

  // The record the parser should find.
  function Usage(e: Served): LogParse.UsageRecord {
    LogParse.UsageRecord(e.millis, e.service, e.port, e.errCode, e.user, e.client, e.clientPort, e.target, e.targetPort,
                         e.uploaded, e.downloaded, e.request)
  }

  lemma NineWords(ws: seq<string>, tail: string)
    requires |ws| == 9
    ensures Unwords(ws) + (" " + tail)
            == ws[0] + (" " + (ws[1] + (" " + (ws[2] + (" " + (ws[3] + (" " + (ws[4] + (" " + (ws[5] + (" " + (ws[6]
               + (" " + (ws[7] + (" " + (ws[8] + (" " + tail)))))))))))))))))
  {
    var a := ws[1..];
    var b := a[1..];
    var c := b[1..];
    var d := c[1..];
    var f := d[1..];
    var g := f[1..];
    var h := g[1..];
    var i := h[1..];
    assert Unwords(i) == ws[8];
    Unfold(h, tail);
    Unfold(g, tail);
    Unfold(f, tail);
    Unfold(d, tail);
    Unfold(c, tail);
    Unfold(b, tail);
    Unfold(a, tail);
    Unfold(ws, tail);
  }

  lemma Unfold(ws: seq<string>, tail: string)
    requires |ws| > 1
    ensures Unwords(ws) + (" " + tail) == ws[0] + (" " + (Unwords(ws[1..]) + (" " + tail)))
  {
    var rest := Unwords(ws[1..]);
    assert (ws[0] + " " + rest) + (" " + tail) == ws[0] + (" " + (rest + (" " + tail)));
  }

  lemma WordsAre(e: Served)
    ensures var ws := LogParse.PrintFields(Usage(e), e.hops);
      && |ws| == 9
      && ws[0] == Value('t', e) + "." + Value('.', e) && ws[1] == Value('N', e) + "." + Value('p', e)
      && ws[2] == Value('E', e) && ws[3] == Value('U', e)
      && ws[4] == Value('C', e) + ":" + Value('c', e) && ws[5] == Value('R', e) + ":" + Value('r', e)
      && ws[6] == Value('O', e) && ws[7] == Value('I', e) && ws[8] == Value('h', e) && e.request == Value('T', e)
  {
    hide FormatInt, LogParse.Pad3, FormatNat;
  }

  lemma LineIs(e: Served)
    ensures LogLine(LOG_FORMAT, e) == Unwords(LogParse.PrintFields(Usage(e), e.hops)) + (" " + e.request)
  {
    hide Expand, Value, Unwords, LogParse.PrintFields, LOG_FORMAT;
    var a, b := "%t.%. %N.%p %E %U ", "%C:%c %R:%r %O %I %h %T";
    FormatIs(a, b);
    FirstWords(b, e);
    MiddleWords(e);
    LastWords(e);
    WordsAre(e);
    NineWords(LogParse.PrintFields(Usage(e), e.hops), e.request);
  }

  lemma FormatIs(a: string, b: string)
    requires a == "%t.%. %N.%p %E %U " && b == "%C:%c %R:%r %O %I %h %T"
    ensures LOG_FORMAT != "" && LOG_FORMAT[0] == 'G' && LOG_FORMAT[1..] == a + b
  {
    assert "G%t.%. %N.%p %E %U " == "G" + a;
    assert LOG_FORMAT == "G" + (a + b);
  }

  lemma {:induction false} FieldsTrailing(s: string)
    ensures Fields(s + " ") == Fields(s)
    decreases |s|
  {
    var t := s + " ";
    if s == "" {
      assert t[1..] == "";
    } else if IsSpace(s[0]) {
      assert t[1..] == s[1..] + " ";
      FieldsTrailing(s[1..]);
    } else {
      var k := Until(s, IsSpace);
      assert t[..k] == s[..k] && t[k..] == s[k..] + " ";
      UntilIs(t, IsSpace, k);
      FieldsTrailing(s[k..]);
    }
  }

  lemma LineParses(e: Served)
    requires Loggable(e)
    ensures LogParse.ParseLogLine(LogLine(LOG_FORMAT, e)) == Ok(Usage(e))
  {
    hide LogLine, Fields, LogParse.PrintFields, LogParse.ParseFields;
    var r := Usage(e);
    LineIs(e);
    LogParse.ParserUndoesPrinter(r, e.hops);
    if e.request == "" {
      FieldsTrailing(Unwords(LogParse.PrintFields(r, e.hops)));
      var line := Unwords(LogParse.PrintFields(r, e.hops));
      assert line + (" " + "") == line + " ";
      assert line + "" == line;
    }
  }

  lemma {:induction false} WordsAndBlanks(ws: seq<string>)
    requires forall w | w in ws :: IsWord(w)
    ensures forall i | 0 <= i < |Unwords(ws)| :: Unwords(ws)[i] == ' ' || !IsSpace(Unwords(ws)[i])
  {
    if |ws| > 1 {
      WordsAndBlanks(ws[1..]);
    }
    if ws != [] {
      assert ws[0] in ws;
    }
  }

  lemma LineIsPlain(e: Served)
    requires Loggable(e)
    ensures forall i | 0 <= i < |LogLine(LOG_FORMAT, e)| ::
              LogLine(LOG_FORMAT, e)[i] != '\n' && LogLine(LOG_FORMAT, e)[i] != '\r'
  {
    hide LogLine, LogParse.PrintFields, LogParse.GoodHost, LogParse.LoggedUsername, Fields, LogParse.PrintTime, FormatInt;
    LineIs(e);
    var ws := LogParse.PrintFields(Usage(e), e.hops);
    FieldsArePrintedWords(e);
    WordsAndBlanks(ws);
    FieldsAreWords(e.request);
    WordsAndBlanks(Fields(e.request));
  }

  lemma FieldsArePrintedWords(e: Served)
    requires Loggable(e)
    ensures forall w | w in LogParse.PrintFields(Usage(e), e.hops) :: IsWord(w)
  {
    hide LogParse.PrintTime, LogParse.GoodHost, LogParse.LoggedUsername, FormatInt, IsWord, LogParse.HostPort,
      LogParse.Service, LogParse.Number, LogParse.ByteCount, LogParse.UnixMillis;
    LogParse.TimeReadsBack(e.millis);
    LogParse.ServiceReadsBack(e.service, e.port);
    LogParse.NumberReadsBack(e.errCode);
    LogParse.UsernameIsWord(e.user);
    LogParse.HostPortReadsBack(e.client, e.clientPort);
    LogParse.HostPortReadsBack(e.target, e.targetPort);
    LogParse.NumberReadsBack(e.uploaded);
    LogParse.NumberReadsBack(e.downloaded);
    LogParse.NumberReadsBack(e.hops);
  }

  // ---- main result ----

  // Whatever is rendered, a request that the engine logs under the format it has loaded is counted as it was
  // served: what came from the target as bytes in, what went to it as bytes out, any engine error as blocked,
  // under the user, target, port and time of the request.
  lemma ServedIsRecorded(s: State, st: Settings, build: string, e: Served)
    requires Rendered(s, st, build).Ok? && PlainSettings(st, build) && Loggable(e)
    ensures Load(Rendered(s, st, build).value).Some?
    ensures Load(Rendered(s, st, build).value).value.options.format.Some?
    ensures var format := Load(Rendered(s, st, build).value).value.options.format.value;
      forall ending, base: nat | ending in {"\n", "\r\n"} ::
        |Tailer.Items(LogLine(format, e) + ending, base)| == 1
        && Counts(Tailer.Items(LogLine(format, e) + ending, base)[0].rec, e)
  {
    hide Rendered, Load, LogLine, LOG_FORMAT, LogParse.ParseLogLine, Counts, Tailer.Items;
    SettingsReadBack(s, st, build);
    LineParses(e);
    LineIsPlain(e);
    UsageCounts(e);
    forall ending, base: nat | ending in {"\n", "\r\n"}
      ensures |Tailer.Items(LogLine(LOG_FORMAT, e) + ending, base)| == 1
              && Counts(Tailer.Items(LogLine(LOG_FORMAT, e) + ending, base)[0].rec, e)
    {
      Tailer.LineDelivered(LogLine(LOG_FORMAT, e), base);
    }
  }

  // The record counts what was served.
  predicate Counts(r: Tailer.Record, e: Served) {
    && r.bytesIn == e.downloaded && r.bytesOut == e.uploaded && r.blocked == (e.errCode != 0)
    && r.unixMillis == e.millis && r.username == e.user && r.clientIP == e.client
    && r.host == e.target && r.port == e.targetPort
    && (e.service == "socks" ==> r.protocol == "socks5")
    && (e.service != "socks" ==> r.protocol == if AsksForTunnel(e.request) then "https" else "http")
  }

  lemma UsageCounts(e: Served)
    ensures Counts(Tailer.FromUsage(Usage(e)), e)
  {
    TunnelIsHttps(e.request);
  }

  // The request text begins, after blanks, with CONNECT in any case.
  predicate AsksForTunnel(request: string) {
    var text := TrimSpace(request);
    |text| >= 7 && forall i | 0 <= i < 7 :: text[i] == "CONNECT"[i] || text[i] == "connect"[i]
  }

  lemma TunnelIsHttps(request: string)
    ensures AsksForTunnel(request) <==> "CONNECT" <= Tailer.Upper(TrimSpace(request))
  {
    var text := TrimSpace(request);
    UpperIs(text);
  }

  lemma {:induction false} UpperIs(s: string)
    ensures |Tailer.Upper(s)| == |s|
    ensures forall i | 0 <= i < |s| ::
              Tailer.Upper(s)[i] == if 'a' <= s[i] <= 'z' then s[i] - 'a' + 'A' else s[i]
  {
    if s != "" {
      UpperIs(s[1..]);
    }
  }
}
