// A reader of the emitted directives (docs/SPIKE-3PROXY.md, section 4 and the layout notes of
// Render), and the proof that reading a rendered configuration gives back the policy.
module ConfigReader {

  import opened Wrappers
  import opened Text
  import opened Engine
  import opened Config

  // ---- tokens ----

  datatype Token = Token(text: string, quoted: bool)

  predicate IsBlank(c: char) {
    c == ' ' || c == '\t' || c == '\r'
  }

  predicate IsQuote(c: char) {
    c == '"'
  }

  predicate IsColon(c: char) {
    c == ':'
  }

  // Blank-separated words; a word opened by a quote runs to the next quote.
  function Tokens(s: string): seq<Token>
    decreases |s|
  {
    if s == "" then []
    else if IsBlank(s[0]) then Tokens(s[1..])
    else if IsQuote(s[0]) then
      var k := Until(s[1..], IsQuote);
      [Token(s[1..][..k], true)] + (if k + 2 <= |s| then Tokens(s[k + 2..]) else [])
    else
      var k := Until(s, IsBlank);
      [Token(s[..k], false)] + Tokens(s[k..])
  }

  // ---- what the engine has loaded so far ----

  datatype Service = Service(directive: string, port: int, strong: bool, allowed: set<string>)

  // What the directives outside the account, limit and service sections set; a later one overrides.
  datatype Options = Options(
    config: Option<string>, pidFile: Option<string>, gid: Option<string>, uid: Option<string>,
    nameservers: seq<string>, cache: Option<int>, cache6: Option<int>, maxConns: Option<int>,
    log: Option<string>, rotate: Option<int>, format: Option<string>, counterFile: Option<string>)

  const NO_OPTIONS := Options(None, None, None, None, [], None, None, None, None, None, None, None)

  datatype Loaded = Loaded(
    strong: bool,
    passwords: map<string, string>,
    bandIn: map<string, int>,
    bandOut: map<string, int>,
    counters: map<string, Rule>,
    acl: set<string>,
    services: seq<Service>,
    options: Options)

  const EMPTY := Loaded(false, map[], map[], map[], map[], {}, [], NO_OPTIONS)

  // The first directive for a name wins.
  function Add<V>(m: map<string, V>, name: string, v: V): map<string, V> {
    if name in m then m else m[name := v]
  }

  function Amount(s: string): Option<int> {
    if s != "" && AllDigits(s) then Some(ParseNat(s)) else None
  }

  // h_users: the first colon separates the name from the password specification.
  function LoadAccount(c: Loaded, spec: string): Option<Loaded> {
    var k := Until(spec, IsColon);
    if k + 4 <= |spec| && spec[k..k + 4] == ":CR:"
    then Some(c.(passwords := Add(c.passwords, spec[..k], spec[k + 4..])))
    else None
  }

  function PeriodOf(letter: string): Option<string> {
    if letter == "D" then Some("daily")
    else if letter == "W" then Some("weekly")
    else if letter == "M" then Some("monthly")
    else None
  }

  function LoadCounter(c: Loaded, direction: string, args: seq<Token>): Option<Loaded> {
    if |args| != 4 then None else
      match (Amount(args[0].text), PeriodOf(args[1].text), Amount(args[2].text))
      case (Some(record), Some(period), Some(mb)) =>
        Some(c.(counters := Add(c.counters, args[3].text, Rule(direction, record, period, mb))))
      case _ => None
  }

  function LoadService(c: Loaded, directive: string, args: seq<Token>): Option<Loaded> {
    if |args| != 1 || |args[0].text| < 2 || args[0].text[..2] != "-p" then None else
      match Amount(args[0].text[2..])
      case Some(port) => Some(c.(services := c.services + [Service(directive, port, c.strong, c.acl)]))
      case None => None
  }

  predicate TextOption(d: string) {
    d in {"config", "pidfile", "setgid", "setuid", "nserver", "logformat", "counter"}
  }

  predicate NumberOption(d: string) {
    d in {"nscache", "nscache6", "maxconn", "rotate"}
  }

  function WithText(o: Options, d: string, arg: string): Options
    requires TextOption(d)
  {
    if d == "config" then o.(config := Some(arg))
    else if d == "pidfile" then o.(pidFile := Some(arg))
    else if d == "setgid" then o.(gid := Some(arg))
    else if d == "setuid" then o.(uid := Some(arg))
    else if d == "nserver" then o.(nameservers := o.nameservers + [arg])
    else if d == "logformat" then o.(format := Some(arg))
    else o.(counterFile := Some(arg))
  }

  function WithNumber(o: Options, d: string, n: int): Options
    requires NumberOption(d)
  {
    if d == "nscache" then o.(cache := Some(n))
    else if d == "nscache6" then o.(cache6 := Some(n))
    else if d == "maxconn" then o.(maxConns := Some(n))
    else o.(rotate := Some(n))
  }

  // The log takes its file and the letter of daily rotation.
  function LoadOption(o: Options, d: string, args: seq<Token>): Option<Options> {
    if TextOption(d) && |args| == 1 then Some(WithText(o, d, args[0].text))
    else if NumberOption(d) && |args| == 1 && Amount(args[0].text).Some? then
      Some(WithNumber(o, d, Amount(args[0].text).value))
    else if d == "log" && |args| == 2 && args[1].text == "D" then Some(o.(log := Some(args[0].text)))
    else None
  }

  predicate IsInclude(t: Token) {
    !t.quoted && t.text != "" && t.text[0] == '$'
  }

  // One directive; None where the engine refuses the configuration.
  function LoadTokens(c: Loaded, ts: seq<Token>): Option<Loaded> {
    if ts == [] then Some(c)
    else if exists i | 0 <= i < |ts| :: IsInclude(ts[i]) then None
    else
      var d, args := ts[0].text, ts[1..];
      if d == "auth" then (if args == [Token("strong", false)] then Some(c.(strong := true)) else None)
      else if d == "users" then (if |args| == 1 then LoadAccount(c, args[0].text) else None)
      else if d == "bandlimin" then
        (if |args| == 2 && Amount(args[0].text).Some?
         then Some(c.(bandIn := Add(c.bandIn, args[1].text, Amount(args[0].text).value))) else None)
      else if d == "bandlimout" then
        (if |args| == 2 && Amount(args[0].text).Some?
         then Some(c.(bandOut := Add(c.bandOut, args[1].text, Amount(args[0].text).value))) else None)
      else if d == "countin" then LoadCounter(c, "in", args)
      else if d == "countout" then LoadCounter(c, "out", args)
      else if d == "countall" then LoadCounter(c, "all", args)
      else if d == "flush" then Some(c.(acl := {}))
      else if d == "allow" then (if |args| == 1 then Some(c.(acl := c.acl + {args[0].text})) else None)
      else if d == "proxy" || d == "socks" then LoadService(c, d, args)
      else
        match LoadOption(c.options, d, args)
        case Some(options) => Some(c.(options := options))
        case None => None
  }

  function LoadLine(c: Loaded, line: string): Option<Loaded> {
    if line != "" && line[0] == '#' then Some(c) else LoadTokens(c, Tokens(line))
  }

  function LoadLines(c: Loaded, ls: seq<string>): Option<Loaded>
    decreases ls
  {
    if ls == [] then Some(c) else
      match LoadLine(c, ls[0])
      case None => None
      case Some(c') => LoadLines(c', ls[1..])
  }

  function Load(text: string): Option<Loaded> {
    LoadLines(EMPTY, Lines(text))
  }

  // ---- what a loaded configuration means ----

  // A service admits a name when it checks passwords, lists the name, and the name has a verifier. This
  // assumes that a service whose access list is empty admits no one, as it does with a list that leaves a
  // name out; EmptyListMattersWhen says for which states that assumption makes a difference.
  predicate Admits(c: Loaded, directive: string, name: string) {
    name in c.passwords
    && exists i | 0 <= i < |c.services| ::
      c.services[i].directive == directive && c.services[i].strong && name in c.services[i].allowed
  }

  // The other reading: an empty access list restricts no one, and only the password counts.
  predicate AdmitsUnrestricted(c: Loaded, directive: string, name: string) {
    name in c.passwords
    && exists i | 0 <= i < |c.services| ::
      c.services[i].directive == directive && c.services[i].strong
      && (c.services[i].allowed == {} || name in c.services[i].allowed)
  }

  function EntryAt(c: Loaded, name: string): Entry
    requires name in c.passwords
  {
    Entry(name, c.passwords[name], Admits(c, "proxy", name), Admits(c, "socks", name),
          if name in c.bandIn then c.bandIn[name] else 0,
          if name in c.bandOut then c.bandOut[name] else 0,
          if name in c.counters then Some(c.counters[name]) else None)
  }

  ghost function LoadedPolicy(c: Loaded): set<Entry> {
    set name | name in c.passwords :: EntryAt(c, name)
  }

  // No limit, counter or access rule names anyone without an account.
  predicate NothingElse(c: Loaded) {
    && c.bandIn.Keys <= c.passwords.Keys
    && c.bandOut.Keys <= c.passwords.Keys
    && c.counters.Keys <= c.passwords.Keys
    && forall i | 0 <= i < |c.services| :: c.services[i].allowed <= c.passwords.Keys && c.services[i].strong
  }

  // ---- tokens of the emitted lines ----

  // A word the tokenizer keeps whole and does not take for an include.
  predicate PlainWord(w: string) {
    && w != "" && w[0] != '"' && w[0] != '$' && w[0] != '#'
    && forall i | 0 <= i < |w| :: !IsBlank(w[i]) && w[i] != '\n'
  }

  // Text that strconv.Quote leaves alone and the reader reads back.
  predicate PlainText(s: string) {
    forall i | 0 <= i < |s| :: s[i] != '"' && s[i] != '\\' && s[i] != '\n'
  }

  lemma {:induction false} EscapePlain(s: string)
    requires PlainText(s)
    ensures Escape(s) == s
  {
    if s != "" {
      EscapePlain(s[1..]);
    }
  }

  lemma TokensOfWord(w: string, rest: string)
    requires PlainWord(w)
    requires rest == "" || IsBlank(rest[0])
    ensures Tokens(w + rest) == [Token(w, false)] + Tokens(rest)
  {
    var s := w + rest;
    assert s[..|w|] == w && s[|w|..] == rest;
    UntilIs(s, IsBlank, |w|);
  }

  lemma TokensAfterBlank(s: string)
    ensures Tokens(" " + s) == Tokens(s)
  {
    assert (" " + s)[1..] == s;
  }

  lemma TokensOfQuoted(s: string, rest: string)
    requires PlainText(s)
    ensures Tokens(Quote(s) + rest) == [Token(s, true)] + Tokens(rest)
  {
    EscapePlain(s);
    var t := Quote(s) + rest;
    assert t[1..] == s + "\"" + rest;
    assert t[1..][..|s|] == s && t[|s| + 2..] == rest;
    UntilIs(t[1..], IsQuote, |s|);
  }

  function Words(ws: seq<string>): seq<Token> {
    if ws == [] then [] else [Token(ws[0], false)] + Words(ws[1..])
  }

  lemma {:induction false} TokensOfWords(ws: seq<string>)
    requires forall w | w in ws :: PlainWord(w)
    ensures Tokens(Unwords(ws)) == Words(ws)
  {
    if ws != [] {
      assert ws[0] in ws;
      if |ws| == 1 {
        assert Unwords(ws) == ws[0] + "";
        TokensOfWord(ws[0], "");
      } else {
        assert Unwords(ws) == ws[0] + (" " + Unwords(ws[1..]));
        TokensOfWord(ws[0], " " + Unwords(ws[1..]));
        TokensAfterBlank(Unwords(ws[1..]));
        TokensOfWords(ws[1..]);
      }
    }
  }

  lemma ThreeWords(ws: seq<string>)
    requires |ws| == 3
    ensures Unwords(ws) == ws[0] + " " + ws[1] + " " + ws[2]
    ensures Words(ws) == [Token(ws[0], false), Token(ws[1], false), Token(ws[2], false)]
  {
    var tail := ws[1..];
    TwoWords(tail);
    assert Unwords(ws) == ws[0] + " " + Unwords(tail);
    assert Words(ws) == [Token(ws[0], false)] + Words(tail);
  }

  lemma TwoWords(ws: seq<string>)
    requires |ws| == 2
    ensures Unwords(ws) == ws[0] + " " + ws[1]
    ensures Words(ws) == [Token(ws[0], false), Token(ws[1], false)]
  {
    var tail := ws[1..];
    assert Unwords(tail) == ws[1];
    assert Words(tail) == [Token(ws[1], false)] + Words(tail[1..]);
  }

  lemma FiveWords(ws: seq<string>)
    requires |ws| == 5
    ensures Unwords(ws) == ws[0] + " " + ws[1] + " " + ws[2] + " " + ws[3] + " " + ws[4]
    ensures Words(ws) == [Token(ws[0], false), Token(ws[1], false), Token(ws[2], false), Token(ws[3], false), Token(ws[4], false)]
  {
    var ws' := ws[1..][1..];
    ThreeWords(ws');
    assert Unwords(ws[1..]) == ws[1] + " " + Unwords(ws');
    assert Words(ws[1..]) == [Token(ws[1], false)] + Words(ws');
  }

  lemma PlainNumber(i: int)
    requires i >= 0
    ensures PlainWord(FormatInt(i)) && Amount(FormatInt(i)) == Some(i)
  {
    ParseFormatNat(i);
  }

  lemma PlainName(name: string)
    requires ValidUsername(name)
    ensures PlainWord(name) && PlainText(name)
  {
  }

  // ---- loading line by line ----

  function Then(c: Option<Loaded>, ls: seq<string>): Option<Loaded> {
    match c
    case None => None
    case Some(c') => LoadLines(c', ls)
  }

  lemma {:induction false} LoadAppend(c: Loaded, a: seq<string>, b: seq<string>)
    ensures LoadLines(c, a + b) == Then(LoadLines(c, a), b)
    decreases a
  {
    if a == [] {
      assert a + b == b;
    } else {
      assert (a + b)[1..] == a[1..] + b;
      match LoadLine(c, a[0])
      case None =>
      case Some(c') => LoadAppend(c', a[1..], b);
    }
  }

  lemma LoadOne(c: Loaded, l: string)
    ensures LoadLines(c, [l]) == LoadLine(c, l)
  {
    match LoadLine(c, l)
    case None =>
    case Some(c') => assert LoadLines(c', [l][1..]) == Some(c');
  }

  // Entries the printer can be given: the fields of a valid user with a valid hash.
  predicate Printable(e: Entry) {
    && ValidUsername(e.name) && ValidHash(e.hash)
    && e.down >= 0 && e.up >= 0
    && (e.rule.Some? ==>
          e.rule.value.record >= 1 && e.rule.value.mb >= 1
          && e.rule.value.direction in {"in", "out", "all"}
          && e.rule.value.period in {"daily", "weekly", "monthly"})
  }

  lemma HashIsPlain(h: string)
    requires ValidHash(h)
    ensures PlainText(h)
  {
    forall i | 0 <= i < |h| ensures h[i] != '"' && h[i] != '\\' && h[i] != '\n' {
      if i < 3 {
        assert h[i] == h[..3][i];
      } else if i < |h| - 23 {
        assert h[i] == h[3..|h| - 23][i - 3];
      } else if i > |h| - 23 {
        assert h[i] == h[|h| - 22..][i - (|h| - 22)];
      }
    }
  }

  // ---- one emitted line at a time: first its tokens, then what they load ----

  lemma AccountLineTokens(e: Entry)
    requires Printable(e)
    ensures Tokens(AccountLine(e)) == [Token("users", false), Token(e.name + ":CR:" + e.hash, true)]
    ensures OneLine(AccountLine(e))
  {
    var spec := e.name + ":CR:" + e.hash;
    PlainName(e.name);
    HashIsPlain(e.hash);
    QuotedLineTokens("users", spec, "");
    assert AccountLine(e) == "users" + " " + Quote(spec) + "";
  }

  lemma OneLineJoin(a: string, b: string)
    requires OneLine(a) && OneLine(b)
    ensures OneLine(a + b)
  {
  }

  lemma QuoteOneLine(s: string)
    requires PlainText(s)
    ensures OneLine(Quote(s))
  {
    EscapePlain(s);
  }

  // A directive, a quoted argument and a tail.
  lemma QuotedLineTokens(d: string, s: string, tail: string)
    requires PlainWord(d) && PlainText(s) && OneLine(tail)
    ensures Tokens(d + " " + Quote(s) + tail) == [Token(d, false), Token(s, true)] + Tokens(tail)
    ensures OneLine(d + " " + Quote(s) + tail)
  {
    hide Tokens;
    EscapePlain(s);
    var rest := Quote(s) + tail;
    TokensOfWord(d, " " + rest);
    TokensAfterBlank(rest);
    TokensOfQuoted(s, tail);
    assert d + " " + Quote(s) + tail == d + (" " + rest);
    hide Quote, Escape;
    QuoteOneLine(s);
    OneLineJoin(d + " " + Quote(s), tail);
    OneLineJoin(d + " ", Quote(s));
  }

  lemma LoadUsers(c: Loaded, spec: string)
    ensures LoadTokens(c, [Token("users", false), Token(spec, true)]) == LoadAccount(c, spec)
  {
    hide LoadAccount;
    var ts := [Token("users", false), Token(spec, true)];
    assert ts[1..] == [Token(spec, true)];
  }

  lemma AccountLineLoads(c: Loaded, e: Entry)
    requires Printable(e)
    ensures LoadLine(c, AccountLine(e)) == Some(c.(passwords := Add(c.passwords, e.name, e.hash)))
  {
    hide LoadTokens;
    var spec := e.name + ":CR:" + e.hash;
    AccountLineTokens(e);
    AccountSplits(c, e);
    LoadUsers(c, spec);
  }

  lemma AccountSplits(c: Loaded, e: Entry)
    requires ValidUsername(e.name)
    ensures LoadAccount(c, e.name + ":CR:" + e.hash) == Some(c.(passwords := Add(c.passwords, e.name, e.hash)))
  {
    var spec := e.name + ":CR:" + e.hash;
    PlainName(e.name);
    assert spec[..|e.name|] == e.name;
    UntilIs(spec, IsColon, |e.name|);
    assert spec[|e.name|..|e.name| + 4] == ":CR:" && spec[|e.name| + 4..] == e.hash;
  }

  lemma BandLines(c: Loaded, e: Entry)
    requires Printable(e)
    ensures LoadLines(c, DownLines(e)) == Some(WithDown(c, e))
    ensures LoadLines(c, UpLines(e)) == Some(WithUp(c, e))
    ensures forall l | l in DownLines(e) + UpLines(e) :: OneLine(l)
  {
    hide LoadTokens, ValidHash, ValidUsername, FormatInt, Tokens, Amount;
    PlainName(e.name);
    if e.down > 0 {
      PlainNumber(e.down);
      var ws := ["bandlimin", FormatInt(e.down), e.name];
      ThreeWords(ws);
      TokensOfWords(ws);
      LoadBand(c, FormatInt(e.down), e.name);
      assert "bandlimin" + " " == "bandlimin ";
      assert DownLines(e) == [Unwords(ws)];
      LoadOne(c, Unwords(ws));
    }
    if e.up > 0 {
      PlainNumber(e.up);
      var ws := ["bandlimout", FormatInt(e.up), e.name];
      ThreeWords(ws);
      TokensOfWords(ws);
      LoadBand(c, FormatInt(e.up), e.name);
      assert "bandlimout" + " " == "bandlimout ";
      assert UpLines(e) == [Unwords(ws)];
      LoadOne(c, Unwords(ws));
    }
  }

  function WithDown(c: Loaded, e: Entry): Loaded {
    if e.down > 0 then c.(bandIn := Add(c.bandIn, e.name, e.down)) else c
  }

  function WithUp(c: Loaded, e: Entry): Loaded {
    if e.up > 0 then c.(bandOut := Add(c.bandOut, e.name, e.up)) else c
  }

  function WithRule(c: Loaded, e: Entry): Loaded {
    if e.rule.Some? then c.(counters := Add(c.counters, e.name, e.rule.value)) else c
  }

  lemma LoadBand(c: Loaded, n: string, name: string)
    requires Amount(n).Some? && PlainWord(name)
    ensures LoadTokens(c, [Token("bandlimin", false), Token(n, false), Token(name, false)])
         == Some(c.(bandIn := Add(c.bandIn, name, Amount(n).value)))
    ensures LoadTokens(c, [Token("bandlimout", false), Token(n, false), Token(name, false)])
         == Some(c.(bandOut := Add(c.bandOut, name, Amount(n).value)))
  {
    assert IsDigit(n[0]);
    var ts, ts' := [Token("bandlimin", false), Token(n, false), Token(name, false)],
      [Token("bandlimout", false), Token(n, false), Token(name, false)];
    assert ts[1..] == ts'[1..] == [Token(n, false), Token(name, false)];
  }

  lemma LoadCount(c: Loaded, direction: string, args: seq<Token>)
    requires direction in {"in", "out", "all"}
    requires forall i | 0 <= i < |args| :: !IsInclude(args[i])
    ensures LoadTokens(c, [Token("count" + direction, false)] + args) == LoadCounter(c, direction, args)
  {
    hide LoadCounter, LoadOption, LoadAccount, LoadService, Add, Amount;
    var ts := [Token("count" + direction, false)] + args;
    assert ts[1..] == args;
    var d := ts[0].text;
    assert d[0] == 'c';
    if direction == "in" {
      assert d == "countin";
    } else if direction == "out" {
      assert d == "countout" && d[5] == 'o';
    } else {
      assert d == "countall" && d[5] == 'a';
    }
  }

  lemma RuleLine(c: Loaded, e: Entry)
    requires Printable(e)
    ensures LoadLines(c, RuleLines(e)) == Some(WithRule(c, e))
    ensures forall l | l in RuleLines(e) :: OneLine(l)
  {
    hide LoadTokens, ValidHash, ValidUsername;
    if e.rule.Some? {
      var r := e.rule.value;
      PlainName(e.name);
      PlainNumber(r.record);
      PlainNumber(r.mb);
      var d := "count" + r.direction;
      var ws := [d, FormatInt(r.record), PeriodLetter(r.period), FormatInt(r.mb), e.name];
      assert PlainWord(d);
      assert PlainWord(PeriodLetter(r.period));
      FiveWords(ws);
      TokensOfWords(ws);
      var args := Words(ws)[1..];
      assert Words(ws) == [Token(d, false)] + args;
      LoadCount(c, r.direction, args);
      assert LoadCounter(c, r.direction, args) == Some(WithRule(c, e));
      LoadOne(c, Unwords(ws));
    }
  }

  // ---- whole sections ----

  // The map the engine builds from one optional value per entry.
  function Fold<V>(es: seq<Entry>, f: Entry -> Option<V>): map<string, V> {
    if es == [] then map[] else
      var m := Fold(es[..|es| - 1], f);
      var e := es[|es| - 1];
      if f(e).Some? then Add(m, e.name, f(e).value) else m
  }

  function HashOf(e: Entry): Option<string> {
    Some(e.hash)
  }

  function DownOf(e: Entry): Option<int> {
    if e.down > 0 then Some(e.down) else None
  }

  function UpOf(e: Entry): Option<int> {
    if e.up > 0 then Some(e.up) else None
  }

  function RuleOf(e: Entry): Option<Rule> {
    e.rule
  }

  function Allowed(es: seq<Entry>, http: bool): set<string> {
    set e | e in es && (if http then e.http else e.socks) :: e.name
  }

  predicate AllPrintable(es: seq<Entry>) {
    forall i | 0 <= i < |es| :: Printable(es[i])
  }

  predicate AllOneLine(ls: seq<string>) {
    forall i | 0 <= i < |ls| :: OneLine(ls[i])
  }

  lemma {:induction false} AccountsLoad(c: Loaded, es: seq<Entry>)
    requires AllPrintable(es) && c.passwords == map[]
    ensures LoadLines(c, AccountLines(es)) == Some(c.(passwords := Fold(es, HashOf)))
    ensures AllOneLine(AccountLines(es))
    decreases |es|
  {
    if es != [] {
      var prefix, e := es[..|es| - 1], es[|es| - 1];
      AccountsLoad(c, prefix);
      LoadAppend(c, AccountLines(prefix), [AccountLine(e)]);
      var c' := c.(passwords := Fold(prefix, HashOf));
      AccountLineLoads(c', e);
      AccountLineTokens(e);
      LoadOne(c', AccountLine(e));
    }
  }

  function WithLimits(c: Loaded, es: seq<Entry>): Loaded {
    c.(bandIn := Fold(es, DownOf), bandOut := Fold(es, UpOf), counters := Fold(es, RuleOf))
  }

  lemma UserLimitsLoad(c: Loaded, e: Entry)
    requires Printable(e)
    ensures LoadLines(c, UserLimitLines(e)) == Some(WithRule(WithUp(WithDown(c, e), e), e))
    ensures AllOneLine(UserLimitLines(e))
  {
    hide LoadLines, Printable;
    var c1 := WithDown(c, e);
    var c2 := WithUp(c1, e);
    BandLines(c, e);
    BandLines(c1, e);
    RuleLine(c2, e);
    LoadAppend(c, DownLines(e) + UpLines(e), RuleLines(e));
    LoadAppend(c, DownLines(e), UpLines(e));
    forall i | 0 <= i < |UserLimitLines(e)| ensures OneLine(UserLimitLines(e)[i]) {
      assert UserLimitLines(e)[i] in DownLines(e) + UpLines(e) || UserLimitLines(e)[i] in RuleLines(e);
    }
  }

  lemma {:induction false} LimitsLoad(c: Loaded, es: seq<Entry>)
    requires AllPrintable(es) && c == WithLimits(c, [])
    ensures LoadLines(c, LimitLines(es)) == Some(WithLimits(c, es))
    ensures AllOneLine(LimitLines(es))
    decreases |es|
  {
    hide LoadLines, UserLimitLines;
    if es == [] {
      NothingLoads(c);
    } else {
      var prefix, e := es[..|es| - 1], es[|es| - 1];
      LimitsLoad(c, prefix);
      LoadAppend(c, LimitLines(prefix), UserLimitLines(e));
      UserLimitsLoad(WithLimits(c, prefix), e);
    }
  }

  lemma NothingLoads(c: Loaded)
    ensures LoadLines(c, []) == Some(c)
  {
  }

  lemma AllowLine(c: Loaded, e: Entry)
    requires ValidUsername(e.name)
    ensures LoadLine(c, "allow " + e.name) == Some(c.(acl := c.acl + {e.name}))
    ensures OneLine("allow " + e.name)
  {
    PlainName(e.name);
    TokensOfWord("allow", " " + (e.name + ""));
    TokensAfterBlank(e.name + "");
    TokensOfWord(e.name, "");
    assert "allow" + (" " + (e.name + "")) == "allow " + e.name;
    var ts := [Token("allow", false), Token(e.name, false)];
    assert ts[1..] == [Token(e.name, false)];
  }

  lemma {:induction false} AllowLoads(c: Loaded, es: seq<Entry>, http: bool)
    requires AllPrintable(es) && c.acl == {}
    ensures LoadLines(c, AllowLines(es, http)) == Some(c.(acl := Allowed(es, http)))
    ensures AllOneLine(AllowLines(es, http))
    decreases |es|
  {
    hide LoadLine, ValidHash, ValidUsername;
    if es == [] {
      assert Allowed(es, http) == {};
    } else {
      var prefix, e := es[..|es| - 1], es[|es| - 1];
      assert es == prefix + [e];
      AllowLoads(c, prefix, http);
      var allowed := if http then e.http else e.socks;
      assert Allowed(es, http) == Allowed(prefix, http) + if allowed then {e.name} else {};
      if allowed {
        var c' := c.(acl := Allowed(prefix, http));
        LoadAppend(c, AllowLines(prefix, http), ["allow " + e.name]);
        AllowLine(c', e);
        LoadOne(c', "allow " + e.name);
      } else {
        assert AllowLines(es, http) == AllowLines(prefix, http);
        assert Allowed(es, http) == Allowed(prefix, http);
      }
    }
  }

  lemma PortLine(c: Loaded, d: string, port: int)
    requires d in {"proxy", "socks"} && port >= 1
    ensures LoadLine(c, d + " -p" + FormatInt(port))
         == Some(c.(services := c.services + [Service(d, port, c.strong, c.acl)]))
    ensures OneLine(d + " -p" + FormatInt(port))
  {
    hide FormatInt, Tokens, LoadTokens, Amount;
    PlainNumber(port);
    var arg := "-p" + FormatInt(port);
    assert arg[..2] == "-p" && arg[2..] == FormatInt(port);
    assert PlainWord(arg);
    TokensOfWord(d, " " + (arg + ""));
    TokensAfterBlank(arg + "");
    TokensOfWord(arg, "");
    NoTokens();
    assert d + (" " + (arg + "")) == d + " -p" + FormatInt(port);
    LoadPort(c, d, arg);
    assert Tokens(d + " -p" + FormatInt(port)) == [Token(d, false), Token(arg, false)];
    assert LoadService(c, d, [Token(arg, false)])
        == Some(c.(services := c.services + [Service(d, port, c.strong, c.acl)]));
  }

  lemma NoTokens()
    ensures Tokens("") == []
  {
  }

  lemma LoadPort(c: Loaded, d: string, arg: string)
    requires d in {"proxy", "socks"} && PlainWord(arg)
    ensures LoadTokens(c, [Token(d, false), Token(arg, false)]) == LoadService(c, d, [Token(arg, false)])
  {
    hide LoadService;
    var ts := [Token(d, false), Token(arg, false)];
    assert ts[1..] == [Token(arg, false)];
  }

  // ---- lines that load nothing, or options ----

  predicate PlainSettings(st: Settings, build: string) {
    && PlainText(st.configFile) && PlainText(st.pidFile) && PlainText(st.logFile) && PlainText(st.counterFile)
    && (st.setUID == "" || PlainWord(st.setUID)) && (st.setGID == "" || PlainWord(st.setGID))
    && OneLine(build)
  }

  ghost predicate Inert(l: string) {
    OneLine(l) && forall c :: LoadLine(c, l) == Some(c)
  }

  ghost predicate AllInert(ls: seq<string>) {
    forall i | 0 <= i < |ls| :: Inert(ls[i])
  }

  lemma {:induction false} InertLoads(c: Loaded, ls: seq<string>)
    requires AllInert(ls)
    ensures LoadLines(c, ls) == Some(c)
    decreases ls
  {
    if ls != [] {
      assert Inert(ls[0]);
      InertLoads(c, ls[1..]);
    }
  }

  lemma WordTokens(d: string, w: string)
    requires PlainWord(d) && PlainWord(w)
    ensures Tokens(d + " " + w) == [Token(d, false), Token(w, false)]
  {
    hide PlainWord;
    assert Tokens("") == [];
    TokensOfWord(w, "");
    hide Tokens;
    TokensAfterBlank(w + "");
    TokensOfWord(d, " " + (w + ""));
    assert d + (" " + (w + "")) == d + " " + w;
  }

  lemma InertComment(l: string)
    requires OneLine(l) && l != "" && l[0] == '#'
    ensures Inert(l)
  {
  }

  // ---- lines that set options ----

  predicate OptionName(d: string) {
    TextOption(d) || NumberOption(d) || d == "log"
  }

  // The lines ls take the options from o to o' and leave all else alone.
  ghost predicate Sets(ls: seq<string>, o: Options, o': Options) {
    AllOneLine(ls) && forall c: Loaded | c.options == o :: LoadLines(c, ls) == Some(c.(options := o'))
  }

  lemma SetsNothing(ls: seq<string>, o: Options)
    requires AllInert(ls)
    ensures Sets(ls, o, o)
  {
    hide Inert;
    forall i | 0 <= i < |ls| ensures OneLine(ls[i]) {
      InertLine(ls[i]);
    }
    forall c: Loaded | c.options == o ensures LoadLines(c, ls) == Some(c.(options := o)) {
      InertLoads(c, ls);
    }
  }

  lemma InertLine(l: string)
    requires Inert(l)
    ensures OneLine(l)
  {
  }

  lemma SetsBoth(a: seq<string>, b: seq<string>, o: Options, o': Options, o'': Options)
    requires Sets(a, o, o') && Sets(b, o', o'')
    ensures Sets(a + b, o, o'')
  {
    forall c: Loaded | c.options == o ensures LoadLines(c, a + b) == Some(c.(options := o'')) {
      LoadAppend(c, a, b);
      assert c.(options := o').options == o';
    }
  }

  lemma SetsOne(l: string, o: Options, o': Options)
    requires OneLine(l) && forall c: Loaded | c.options == o :: LoadLine(c, l) == Some(c.(options := o'))
    ensures Sets([l], o, o')
  {
    hide LoadLine;
    forall c: Loaded | c.options == o ensures LoadLines(c, [l]) == Some(c.(options := o')) {
      LoadOne(c, l);
    }
  }

  lemma OptionLoads(c: Loaded, ts: seq<Token>)
    requires ts != [] && OptionName(ts[0].text)
    requires forall i | 0 <= i < |ts| :: !IsInclude(ts[i])
    requires LoadOption(c.options, ts[0].text, ts[1..]).Some?
    ensures LoadTokens(c, ts) == Some(c.(options := LoadOption(c.options, ts[0].text, ts[1..]).value))
  {
    hide LoadOption;
  }

  lemma WordOption(o: Options, d: string, w: string)
    requires TextOption(d) && PlainWord(d) && PlainWord(w)
    ensures Sets([d + " " + w], o, WithText(o, d, w))
  {
    hide Tokens, LoadTokens, WithText;
    WordTokens(d, w);
    var ts := [Token(d, false), Token(w, false)];
    assert ts[1..] == [Token(w, false)];
    WordLineIsOne(d, w);
    forall c: Loaded | c.options == o ensures LoadLine(c, d + " " + w) == Some(c.(options := WithText(o, d, w))) {
      OptionLoads(c, ts);
    }
    SetsOne(d + " " + w, o, WithText(o, d, w));
  }

  lemma WordLineIsOne(d: string, w: string)
    requires PlainWord(d) && PlainWord(w)
    ensures OneLine(d + " " + w) && d + " " + w != "" && (d + " " + w)[0] != '#'
  {
  }

  lemma NumberOptionSets(o: Options, d: string, n: int)
    requires NumberOption(d) && PlainWord(d) && n >= 0
    ensures Sets([d + " " + FormatInt(n)], o, WithNumber(o, d, n))
  {
    hide Tokens, LoadTokens, WithNumber, FormatInt, Amount;
    PlainNumber(n);
    var w := FormatInt(n);
    WordTokens(d, w);
    var ts := [Token(d, false), Token(w, false)];
    assert ts[1..] == [Token(w, false)];
    WordLineIsOne(d, w);
    forall c: Loaded | c.options == o ensures LoadLine(c, d + " " + w) == Some(c.(options := WithNumber(o, d, n))) {
      assert !TextOption(d);
      OptionLoads(c, ts);
    }
    SetsOne(d + " " + w, o, WithNumber(o, d, n));
  }

  lemma QuotedOption(o: Options, d: string, s: string)
    requires TextOption(d) && PlainWord(d) && PlainText(s)
    ensures Sets([d + " " + Quote(s)], o, WithText(o, d, s))
  {
    hide Quote, LoadTokens, PlainText, WithText;
    NoTokens();
    hide Tokens;
    QuotedLineTokens(d, s, "");
    var l, ts := d + " " + Quote(s), [Token(d, false), Token(s, true)];
    assert l + "" == l && ts + [] == ts && ts[1..] == [Token(s, true)];
    forall c: Loaded | c.options == o ensures LoadLine(c, l) == Some(c.(options := WithText(o, d, s))) {
      assert l[0] == d[0];
      OptionLoads(c, ts);
    }
    SetsOne(l, o, WithText(o, d, s));
  }

  lemma LogLine(o: Options, file: string)
    requires PlainText(file)
    ensures Sets(["log " + Quote(file) + " D"], o, o.(log := Some(file)))
  {
    hide Quote, LoadTokens, PlainText;
    NoTokens();
    TokensOfWord("D", "");
    hide Tokens;
    QuotedLineTokens("log", file, " D");
    TokensAfterBlank("D");
    assert " " + "D" == " D" && "D" + "" == "D" && [Token("D", false)] + [] == [Token("D", false)];
    assert "log" + " " == "log ";
    var l, ts := "log " + Quote(file) + " D", [Token("log", false), Token(file, true), Token("D", false)];
    assert [Token("log", false), Token(file, true)] + [Token("D", false)] == ts;
    assert ts[1..] == [Token(file, true), Token("D", false)];
    forall c: Loaded | c.options == o ensures LoadLine(c, l) == Some(c.(options := o.(log := Some(file)))) {
      assert l[0] == 'l';
      OptionLoads(c, ts);
    }
    SetsOne(l, o, o.(log := Some(file)));
  }

  function WithIds(o: Options, st: Settings): Options {
    o.(gid := if st.setGID != "" then Some(st.setGID) else o.gid,
       uid := if st.setUID != "" then Some(st.setUID) else o.uid)
  }

  lemma IdsLoad(o: Options, st: Settings)
    requires st.setUID == "" || PlainWord(st.setUID)
    requires st.setGID == "" || PlainWord(st.setGID)
    ensures Sets((if st.setGID != "" then ["setgid " + st.setGID] else [])
                 + (if st.setUID != "" then ["setuid " + st.setUID] else []), o, WithIds(o, st))
  {
    hide Sets;
    var gid := if st.setGID != "" then ["setgid " + st.setGID] else [];
    var uid := if st.setUID != "" then ["setuid " + st.setUID] else [];
    var o' := o.(gid := if st.setGID != "" then Some(st.setGID) else o.gid);
    SetsNothing([], o);
    SetsNothing([], o');
    if st.setGID != "" {
      WordOption(o, "setgid", st.setGID);
      assert "setgid" + " " == "setgid ";
    }
    if st.setUID != "" {
      WordOption(o', "setuid", st.setUID);
      assert "setuid" + " " == "setuid ";
    }
    SetsBoth(gid, uid, o, o', WithIds(o, st));
  }

  lemma TitleInert(build: string)
    requires OneLine(build)
    ensures AllInert(["# Managed by xoxproxy — DO NOT EDIT.",
                      "# Regenerated and deployed by the " + "control plane; manual changes are lost.",
                      "# generated by " + build])
  {
    hide Inert;
    InertComment("# Managed by xoxproxy — DO NOT EDIT.");
    OneLineJoin("# Regenerated and deployed by the ", "control plane; manual changes are lost.");
    InertComment("# Regenerated and deployed by the " + "control plane; manual changes are lost.");
    OneLineJoin("# generated by ", build);
    InertComment("# generated by " + build);
  }

  lemma IdentityLoads(o: Options, st: Settings, build: string)
    requires PlainSettings(st, build)
    ensures Sets(IdentityLines(st, build), o,
                 WithIds(o.(config := Some(st.configFile), pidFile := Some(st.pidFile)), st))
  {
    hide Sets, Quote, WithIds;
    var title := ["# Managed by xoxproxy — DO NOT EDIT.",
                  "# Regenerated and deployed by the " + "control plane; manual changes are lost.",
                  "# generated by " + build];
    var a, b := ["config " + Quote(st.configFile)], ["pidfile " + Quote(st.pidFile)];
    var ids := (if st.setGID != "" then ["setgid " + st.setGID] else [])
      + (if st.setUID != "" then ["setuid " + st.setUID] else []);
    var o1 := o.(config := Some(st.configFile));
    var o2 := o1.(pidFile := Some(st.pidFile));
    TitleInert(build);
    SetsNothing(title, o);
    QuotedOption(o, "config", st.configFile);
    assert "config" + " " == "config ";
    QuotedOption(o1, "pidfile", st.pidFile);
    assert "pidfile" + " " == "pidfile ";
    IdsLoad(o2, st);
    SetsBoth(title, a, o, o, o1);
    SetsBoth(title + a, b, o, o1, o2);
    SetsBoth(title + a + b, ids, o, o2, WithIds(o2, st));
    assert IdentityLines(st, build) == title + a + b + ids;
  }

  lemma {:induction false} NameserversLoad(o: Options, ns: seq<string>)
    requires forall i | 0 <= i < |ns| :: ValidNameserver(ns[i])
    ensures Sets(NameserverLines(ns), o, o.(nameservers := o.nameservers + ns))
    decreases |ns|
  {
    hide Sets;
    if ns == [] {
      SetsNothing([], o);
      assert o.nameservers + ns == o.nameservers;
    } else {
      var prefix, last := ns[..|ns| - 1], ns[|ns| - 1];
      var o' := o.(nameservers := o.nameservers + prefix);
      NameserversLoad(o, prefix);
      WordOption(o', "nserver", last);
      assert "nserver" + " " + last == "nserver " + last;
      assert o.nameservers + prefix + [last] == o.nameservers + ns;
      SetsBoth(NameserverLines(prefix), ["nserver " + last], o, o', o.(nameservers := o.nameservers + ns));
    }
  }

  lemma CacheLines(o: Options)
    ensures Sets(["nscache 65535", "nscache6 65535"], o, o.(cache := Some(65535), cache6 := Some(65535)))
  {
    hide Sets;
    var o' := o.(cache := Some(65535));
    FiveDigits();
    NumberOptionSets(o, "nscache", 65535);
    assert "nscache" + " " + "65535" == "nscache 65535";
    NumberOptionSets(o', "nscache6", 65535);
    assert "nscache6" + " " + "65535" == "nscache6 65535";
    SetsBoth(["nscache 65535"], ["nscache6 65535"], o, o', o'.(cache6 := Some(65535)));
    assert ["nscache 65535"] + ["nscache6 65535"] == ["nscache 65535", "nscache6 65535"];
  }

  lemma FiveDigits()
    ensures FormatInt(65535) == "65535"
  {
    assert FormatNat(6) == "6";
    assert FormatNat(65) == "65";
    assert FormatNat(655) == "655";
    assert FormatNat(6553) == "6553";
  }

  function WithResolvers(o: Options, st: Settings): Options {
    if st.nameservers == [] then o
    else o.(nameservers := o.nameservers + st.nameservers, cache := Some(65535), cache6 := Some(65535))
  }

  lemma ResolverLoads(o: Options, st: Settings)
    requires ValidSettings(st)
    ensures Sets(ResolverLines(st), o, WithResolvers(o, st))
  {
    hide Sets;
    var ns := st.nameservers;
    var o' := o.(nameservers := o.nameservers + ns);
    NameserversLoad(o, ns);
    CacheLines(o');
    SetsNothing([], o');
    assert ns == [] ==> o.nameservers + ns == o.nameservers;
    SetsBoth(NameserverLines(ns), if ns != [] then ["nscache 65535", "nscache6 65535"] else [], o, o', WithResolvers(o, st));
  }

  lemma PlainTextJoin(a: string, b: string)
    requires PlainText(a) && PlainText(b)
    ensures PlainText(a + b)
  {
  }

  lemma FormatLineOf(o: Options, s: string)
    requires PlainText(s)
    ensures Sets(["logformat \"" + s + "\""], o, o.(format := Some(s)))
  {
    hide Sets;
    EscapePlain(s);
    QuotedOption(o, "logformat", s);
    assert "logformat" + " " + Quote(s) == "logformat \"" + s + "\"";
  }

  lemma FormatLine(o: Options)
    ensures Sets(["logformat \"" + LOG_FORMAT + "\""], o, o.(format := Some(LOG_FORMAT)))
  {
    hide Sets;
    var a, b := "G%t.%. %N.%p %E %U ", "%C:%c %R:%r %O %I %h %T";
    PlainTextJoin(a, b);
    FormatLineOf(o, a + b);
  }

  lemma CounterLine(o: Options, file: string)
    requires PlainText(file)
    ensures Sets(["counter " + Quote(file)], o, o.(counterFile := Some(file)))
  {
    hide Sets, Quote, PlainText;
    QuotedOption(o, "counter", file);
    assert "counter" + " " == "counter ";
  }

  lemma NumberLine(o: Options, d: string, n: int)
    requires NumberOption(d) && PlainWord(d) && n >= 0
    ensures Sets(if n > 0 then [d + " " + FormatInt(n)] else [], o, if n > 0 then WithNumber(o, d, n) else o)
  {
    hide Sets;
    NumberOptionSets(o, d, n);
    SetsNothing([], o);
  }

  lemma FilesLoad(o: Options, st: Settings, build: string)
    requires ValidSettings(st) && PlainSettings(st, build)
    ensures Sets(FileLines(st), o,
                 o.(maxConns := if st.maxConns > 0 then Some(st.maxConns) else o.maxConns, log := Some(st.logFile),
                    rotate := if st.rotate > 0 then Some(st.rotate) else o.rotate, format := Some(LOG_FORMAT),
                    counterFile := Some(st.counterFile)))
  {
    hide Sets, Quote, FormatInt, ValidPath, PlainText, LOG_FORMAT;
    var a := if st.maxConns > 0 then ["maxconn " + FormatInt(st.maxConns)] else [];
    var b := ["log " + Quote(st.logFile) + " D"];
    var r := if st.rotate > 0 then ["rotate " + FormatInt(st.rotate)] else [];
    var f, n := ["logformat \"" + LOG_FORMAT + "\""], ["counter " + Quote(st.counterFile)];
    var o1 := o.(maxConns := if st.maxConns > 0 then Some(st.maxConns) else o.maxConns);
    var o2 := o1.(log := Some(st.logFile));
    var o3 := o2.(rotate := if st.rotate > 0 then Some(st.rotate) else o.rotate);
    var o4 := o3.(format := Some(LOG_FORMAT));
    assert "maxconn" + " " == "maxconn " && "rotate" + " " == "rotate ";
    NumberLine(o, "maxconn", st.maxConns);
    LogLine(o1, st.logFile);
    NumberLine(o2, "rotate", st.rotate);
    FormatLine(o3);
    CounterLine(o4, st.counterFile);
    var o5 := o4.(counterFile := Some(st.counterFile));
    SetsBoth(a, b, o, o1, o2);
    SetsBoth(a + b, r, o, o2, o3);
    SetsBoth(a + b + r, f, o, o3, o4);
    SetsBoth(a + b + r + f, n, o, o4, o5);
    assert FileLines(st) == a + b + r + f + n;
  }

  // ---- the whole text ----

  lemma DirectiveLines(c: Loaded)
    ensures LoadLine(c, "") == Some(c)
    ensures LoadLine(c, "auth strong") == Some(c.(strong := true))
    ensures LoadLine(c, "flush") == Some(c.(acl := {}))
    ensures OneLine("") && OneLine("auth strong") && OneLine("flush")
  {
    hide Tokens, LoadTokens;
    NoTokens();
    LoadPlain(c);
    var auth, strong, flush := "auth", "strong", "flush";
    TokensOfWord(auth, " " + strong);
    TokensAfterBlank(strong);
    TokensOfWord(strong, "");
    TokensOfWord(flush, "");
    assert strong + "" == strong && flush + "" == flush;
    assert "auth strong" == auth + (" " + strong);
    assert Tokens("auth strong") == [Token("auth", false), Token("strong", false)];
    assert Tokens("flush") == [Token("flush", false)];
  }

  lemma LoadPlain(c: Loaded)
    ensures LoadTokens(c, []) == Some(c)
    ensures LoadTokens(c, [Token("auth", false), Token("strong", false)]) == Some(c.(strong := true))
    ensures LoadTokens(c, [Token("flush", false)]) == Some(c.(acl := {}))
  {
    assert [Token("auth", false), Token("strong", false)][1..] == [Token("strong", false)];
  }

  lemma AccountSectionLoads(c: Loaded, es: seq<Entry>)
    requires AllPrintable(es) && c.passwords == map[]
    ensures LoadLines(c, AccountSection(es)) == Some(c.(strong := true, passwords := Fold(es, HashOf)))
    ensures AllOneLine(AccountSection(es))
  {
    hide LoadLine;
    var c' := c.(strong := true);
    DirectiveLines(c);
    InertComment("# --- accounts ---");
    assert LoadLine(c, "# --- accounts ---") == Some(c);
    LoadThreeLines(c, "", "# --- accounts ---", "auth strong", c');
    LoadAppend(c, ["", "# --- accounts ---", "auth strong"], AccountLines(es));
    AccountsLoad(c', es);
  }

  lemma LoadThreeLines(c: Loaded, l0: string, l1: string, l2: string, c': Loaded)
    requires LoadLine(c, l0) == Some(c) && LoadLine(c, l1) == Some(c) && LoadLine(c, l2) == Some(c')
    ensures LoadLines(c, [l0, l1, l2]) == Some(c')
  {
    LoadOne(c, l0);
    LoadOne(c, l1);
    LoadOne(c, l2);
    assert [l0, l1, l2] == [l0] + ([l1] + [l2]);
    LoadAppend(c, [l1], [l2]);
    LoadAppend(c, [l0], [l1] + [l2]);
  }

  lemma LimitSectionLoads(c: Loaded, es: seq<Entry>)
    requires AllPrintable(es) && c == WithLimits(c, [])
    ensures LoadLines(c, LimitSection(es)) == Some(WithLimits(c, es))
    ensures AllOneLine(LimitSection(es))
  {
    hide LoadLine, WithLimits, LimitLines;
    DirectiveLines(c);
    InertComment("# --- limits ---");
    InertLoads(c, ["", "# --- limits ---"]) by {
      EmptyInert();
    }
    LoadAppend(c, ["", "# --- limits ---"], LimitLines(es));
    LimitsLoad(c, es);
  }

  lemma EmptyInert()
    ensures Inert("")
  {
    forall c ensures LoadLine(c, "") == Some(c) {
      DirectiveLines(c);
    }
  }

  lemma ServiceLoads(c: Loaded, name: string, d: string, port: int, es: seq<Entry>, http: bool)
    requires AllPrintable(es) && d in {"proxy", "socks"} && port >= 1 && OneLine(name)
    ensures LoadLines(c, ServiceLines(name, d, port, es, http))
         == Some(c.(acl := Allowed(es, http),
                    services := c.services + [Service(d, port, c.strong, Allowed(es, http))]))
    ensures AllOneLine(ServiceLines(name, d, port, es, http))
  {
    hide LoadLine, FormatInt, Allowed, AllowLines;
    var title := "# --- " + name + " ---";
    var c1 := c.(acl := {});
    var c2 := c.(acl := Allowed(es, http));
    DirectiveLines(c);
    OneLineJoin("# --- ", name);
    OneLineJoin("# --- " + name, " ---");
    InertComment(title);
    assert LoadLine(c, title) == Some(c);
    LoadThreeLines(c, "", title, "flush", c1);
    AllowLoads(c1, es, http);
    PortLine(c2, d, port);
    LoadOne(c2, d + " -p" + FormatInt(port));
    LoadAppend(c, ["", title, "flush"] + AllowLines(es, http), [d + " -p" + FormatInt(port)]);
    LoadAppend(c, ["", title, "flush"], AllowLines(es, http));
  }

  function Compiled(es: seq<Entry>, st: Settings): Loaded {
    Loaded(true, Fold(es, HashOf), Fold(es, DownOf), Fold(es, UpOf), Fold(es, RuleOf), Allowed(es, false),
           [Service("proxy", st.httpPort, true, Allowed(es, true)),
            Service("socks", st.socks5Port, true, Allowed(es, false))],
           OptionsOf(st))
  }

  function OptionsOf(st: Settings): Options {
    var o := WithIds(NO_OPTIONS.(config := Some(st.configFile), pidFile := Some(st.pidFile)), st);
    WithResolvers(o, st).(
      maxConns := if st.maxConns > 0 then Some(st.maxConns) else None, log := Some(st.logFile),
      rotate := if st.rotate > 0 then Some(st.rotate) else None, format := Some(LOG_FORMAT),
      counterFile := Some(st.counterFile))
  }

  lemma HeaderLoads(st: Settings, build: string)
    requires ValidSettings(st) && PlainSettings(st, build)
    ensures LoadLines(EMPTY, HeaderLines(st, build)) == Some(EMPTY.(options := OptionsOf(st)))
    ensures AllOneLine(HeaderLines(st, build))
  {
    HeaderSets(st, build);
    assert EMPTY.options == NO_OPTIONS;
    hide LoadLines, OptionsOf;
  }

  lemma HeaderSets(st: Settings, build: string)
    requires ValidSettings(st) && PlainSettings(st, build)
    ensures Sets(HeaderLines(st, build), NO_OPTIONS, OptionsOf(st))
  {
    hide Sets, IdentityLines, ResolverLines, FileLines, ValidSettings, PlainSettings, LOG_FORMAT;
    var o1 := WithIds(NO_OPTIONS.(config := Some(st.configFile), pidFile := Some(st.pidFile)), st);
    var o2 := WithResolvers(o1, st);
    IdentityLoads(NO_OPTIONS, st, build);
    ResolverLoads(o1, st);
    FilesLoad(o2, st, build);
    SetsBoth(IdentityLines(st, build), ResolverLines(st), NO_OPTIONS, o1, o2);
    SetsBoth(IdentityLines(st, build) + ResolverLines(st), FileLines(st), NO_OPTIONS, o2, OptionsOf(st));
  }

  lemma ConfigLoads(es: seq<Entry>, st: Settings, build: string)
    requires ValidSettings(st) && PlainSettings(st, build) && AllPrintable(es)
    ensures Load(Unlines(ConfigLines(es, st, build))) == Some(Compiled(es, st))
  {
    hide LoadLines, Lines, Unlines, HeaderLines, AccountSection, LimitSection, ServiceLines, Fold, Allowed,
      ValidPath, PlainSettings, AllPrintable, OptionsOf;
    var c0 := EMPTY.(options := OptionsOf(st));
    var c1 := c0.(strong := true, passwords := Fold(es, HashOf));
    var c2 := WithLimits(c1, es);
    var http, socks := Service("proxy", st.httpPort, true, Allowed(es, true)),
      Service("socks", st.socks5Port, true, Allowed(es, false));
    var c3 := c2.(acl := Allowed(es, true), services := [] + [http]);
    var a, b, l, s, t := HeaderLines(st, build), AccountSection(es), LimitSection(es),
      ServiceLines("HTTP proxy", "proxy", st.httpPort, es, true),
      ServiceLines("SOCKS5 proxy", "socks", st.socks5Port, es, false);
    HeaderLoads(st, build);
    AccountSectionLoads(c0, es);
    NothingFolds();
    LimitSectionLoads(c1, es);
    ServiceLoads(c2, "HTTP proxy", "proxy", st.httpPort, es, true);
    ServiceLoads(c3, "SOCKS5 proxy", "socks", st.socks5Port, es, false);
    LoadAppend(EMPTY, a, b);
    LoadAppend(EMPTY, a + b, l);
    LoadAppend(EMPTY, a + b + l, s);
    LoadAppend(EMPTY, a + b + l + s, t);
    LinesOfUnlines(a + b + l + s + t);
    assert [] + [http] + [socks] == [http, socks];
  }

  lemma NothingFolds()
    ensures Fold([], DownOf) == map[] && Fold([], UpOf) == map[] && Fold([], RuleOf) == map[]
  {
  }

  // ---- lookups ----

  lemma {:induction false} FoldLookup<V>(es: seq<Entry>, f: Entry -> Option<V>, e: Entry)
    requires StrictByName(es) && e in es
    ensures e.name in Fold(es, f) <==> f(e).Some?
    ensures f(e).Some? ==> Fold(es, f)[e.name] == f(e).value
    decreases |es|
  {
    var prefix, last := es[..|es| - 1], es[|es| - 1];
    assert es == prefix + [last];
    if e == last {
      FoldDomain(prefix, f);
      forall i | 0 <= i < |prefix| ensures prefix[i].name != last.name {
        LessTotal(prefix[i].name, last.name);
        assert Less(es[i].name, es[|es| - 1].name);
      }
    } else {
      FoldLookup(prefix, f, e);
      var i :| 0 <= i < |prefix| && prefix[i] == e;
      assert Less(es[i].name, es[|es| - 1].name);
      LessTotal(e.name, last.name);
    }
  }

  lemma {:induction false} FoldDomain<V>(es: seq<Entry>, f: Entry -> Option<V>)
    ensures forall name | name in Fold(es, f) :: exists i | 0 <= i < |es| :: es[i].name == name && f(es[i]).Some?
    decreases |es|
  {
    if es != [] {
      var prefix := es[..|es| - 1];
      FoldDomain(prefix, f);
      forall name | name in Fold(es, f)
        ensures exists i | 0 <= i < |es| :: es[i].name == name && f(es[i]).Some?
      {
        if name in Fold(prefix, f) {
          var i :| 0 <= i < |prefix| && prefix[i].name == name && f(prefix[i]).Some?;
          assert es[i].name == name && f(es[i]).Some?;
        } else {
          assert es[|es| - 1].name == name;
        }
      }
    }
  }

  lemma CompiledPolicy(es: seq<Entry>, st: Settings)
    requires StrictByName(es) && AllPrintable(es)
    ensures LoadedPolicy(Compiled(es, st)) == set e | e in es
    ensures NothingElse(Compiled(es, st))
  {
    hide Fold, StrictByName;
    var c := Compiled(es, st);
    FoldDomain(es, HashOf);
    FoldDomain(es, DownOf);
    FoldDomain(es, UpOf);
    FoldDomain(es, RuleOf);
    forall e | e in es ensures e.name in c.passwords && EntryAt(c, e.name) == e {
      EntryReadsBack(es, st, e);
    }
    forall name | name in c.passwords ensures exists e :: e in es && e.name == name {
      var i :| 0 <= i < |es| && es[i].name == name && HashOf(es[i]).Some?;
      assert es[i] in es;
    }
  }

  lemma EntryReadsBack(es: seq<Entry>, st: Settings, e: Entry)
    requires StrictByName(es) && AllPrintable(es) && e in es
    ensures e.name in Compiled(es, st).passwords && EntryAt(Compiled(es, st), e.name) == e
  {
    hide Fold;
    var c := Compiled(es, st);
    FoldLookup(es, HashOf, e);
    FoldLookup(es, DownOf, e);
    FoldLookup(es, UpOf, e);
    FoldLookup(es, RuleOf, e);
    assert forall x | x in es && x.name == e.name :: x == e by {
      NameDetermines(es, e);
    }
    assert c.services[0].directive == "proxy" && c.services[1].directive == "socks";
    assert Admits(c, "proxy", e.name) == e.http;
    assert Admits(c, "socks", e.name) == e.socks;
  }

  lemma NameDetermines(es: seq<Entry>, e: Entry)
    requires StrictByName(es) && e in es
    ensures forall x | x in es && x.name == e.name :: x == e
  {
    forall x | x in es && x.name == e.name ensures x == e {
      var i :| 0 <= i < |es| && es[i] == e;
      var j :| 0 <= j < |es| && es[j] == x;
      LessTotal(e.name, e.name);
    }
  }

  // ---- main results ----

  // What the printer is given: the strict listing of the policy.
  lemma PrintableEntry(u: User)
    requires ValidUser(u) && ValidHash(u.engineHash)
    ensures Printable(EntryOf(u))
  {
    hide ValidHash, ValidUsername, ValidProtocols;
  }

  lemma RenderedListing(s: State, st: Settings, build: string)
    requires Rendered(s, st, build).Ok?
    ensures var es := Entries(SortByName(s.users));
      && StrictByName(es) && AllPrintable(es)
      && (forall e :: e in es <==> e in Policy(s))
      && Rendered(s, st, build) == Ok(Unlines(ConfigLines(es, st, build)))
  {
    hide ConfigLines, SortByName, ValidHash, ValidSettings;
    var us := SortByName(s.users);
    SortSorts(s.users);
    SortedValidIsStrict(s, us);
    assert FirstBadHash(us).None?;
    forall i | 0 <= i < |us| ensures Printable(Entries(us)[i]) {
      PrintableEntry(us[i]);
    }
  }

  // Compilation preserves meaning: the reader accepts every rendered text, what it has loaded is
  // the policy of the state and nothing else, on two services that check passwords.
  lemma ReadingBack(s: State, st: Settings, build: string)
    requires Rendered(s, st, build).Ok? && PlainSettings(st, build)
    ensures var loaded := Load(Rendered(s, st, build).value);
      && loaded.Some?
      && LoadedPolicy(loaded.value) == Policy(s)
      && NothingElse(loaded.value)
      && |loaded.value.services| == 2
      && loaded.value.services[0].directive == "proxy" && loaded.value.services[0].port == st.httpPort
      && loaded.value.services[1].directive == "socks" && loaded.value.services[1].port == st.socks5Port
  {
    hide Rendered, ConfigLines, Load, LoadedPolicy, NothingElse, StrictByName, AllPrintable;
    var es := Entries(SortByName(s.users));
    RenderedListing(s, st, build);
    RenderedSettings(s, st, build);
    ConfigLoads(es, st, build);
    CompiledPolicy(es, st);
    assert (set e | e in es) == Policy(s);
  }

  // And what the directives outside the policy carry: each holds the setting it is named for, and the optional
  // ones are there exactly when the setting is.
  lemma SettingsReadBack(s: State, st: Settings, build: string)
    requires Rendered(s, st, build).Ok? && PlainSettings(st, build)
    ensures Load(Rendered(s, st, build).value).Some?
    ensures var o := Load(Rendered(s, st, build).value).value.options;
      && o.config == Some(st.configFile) && o.pidFile == Some(st.pidFile)
      && o.log == Some(st.logFile) && o.counterFile == Some(st.counterFile) && o.format == Some(LOG_FORMAT)
      && o.gid == (if st.setGID == "" then None else Some(st.setGID))
      && o.uid == (if st.setUID == "" then None else Some(st.setUID))
      && o.maxConns == (if st.maxConns == 0 then None else Some(st.maxConns))
      && o.rotate == (if st.rotate == 0 then None else Some(st.rotate))
      && o.nameservers == st.nameservers
      && o.cache == o.cache6 == (if st.nameservers == [] then None else Some(65535))
  {
    hide Rendered, ConfigLines, Load, StrictByName, AllPrintable, Fold, Allowed, LOG_FORMAT;
    RenderedListing(s, st, build);
    RenderedSettings(s, st, build);
    ConfigLoads(Entries(SortByName(s.users)), st, build);
  }

  predicate Uses(e: Entry, directive: string) {
    if directive == "proxy" then e.http else e.socks
  }

  // How an empty access list is read makes a difference for a service exactly when there are users and none
  // of them uses it.
  lemma EmptyListMattersWhen(s: State, st: Settings, build: string, directive: string)
    requires Rendered(s, st, build).Ok? && PlainSettings(st, build) && directive in {"proxy", "socks"}
    ensures var loaded := Load(Rendered(s, st, build).value);
      && loaded.Some?
      && ((exists name :: AdmitsUnrestricted(loaded.value, directive, name) != Admits(loaded.value, directive, name))
          <==> Policy(s) != {} && forall e | e in Policy(s) :: !Uses(e, directive))
  {
    hide Rendered, ConfigLines, Load, StrictByName, AllPrintable, Compiled, Admits, AdmitsUnrestricted, Policy;
    var es := Entries(SortByName(s.users));
    RenderedListing(s, st, build);
    RenderedSettings(s, st, build);
    ConfigLoads(es, st, build);
    CompiledEmptyList(es, st, directive);
    assert (exists e :: e in es) <==> Policy(s) != {} by {
      SameElements(es, Policy(s));
    }
  }

  lemma SameElements(es: seq<Entry>, policy: set<Entry>)
    requires forall e :: e in es <==> e in policy
    ensures (exists e :: e in es) <==> policy != {}
  {
    if policy != {} {
      var e :| e in policy;
      assert e in es;
    }
  }

  lemma CompiledEmptyList(es: seq<Entry>, st: Settings, directive: string)
    requires StrictByName(es) && AllPrintable(es) && directive in {"proxy", "socks"}
    ensures var c := Compiled(es, st);
      (exists name :: AdmitsUnrestricted(c, directive, name) != Admits(c, directive, name))
      <==> (exists e :: e in es) && forall e | e in es :: !Uses(e, directive)
  {
    hide StrictByName, AllPrintable, Fold;
    var c := Compiled(es, st);
    var service := if directive == "proxy" then c.services[0] else c.services[1];
    forall name ensures Admits(c, directive, name) <==> name in c.passwords && name in service.allowed
                ensures AdmitsUnrestricted(c, directive, name)
                        <==> name in c.passwords && (service.allowed == {} || name in service.allowed)
    {
      assert c.services[0].directive == "proxy" && c.services[1].directive == "socks";
    }
    FoldDomain(es, HashOf);
    if es != [] {
      var e := es[0];
      assert e in es;
      FoldLookup(es, HashOf, e);
      assert e.name in c.passwords;
      if forall x | x in es :: !Uses(x, directive) {
        assert service.allowed == {};
        assert AdmitsUnrestricted(c, directive, e.name) != Admits(c, directive, e.name);
      } else {
        var x :| x in es && Uses(x, directive);
        assert x.name in service.allowed;
      }
    }
  }

  lemma RenderedSettings(s: State, st: Settings, build: string)
    requires Rendered(s, st, build).Ok?
    ensures ValidSettings(st) && ValidState(s)
  {
  }

  // Byte comparison is an exact change test: two texts are equal exactly when the policies are.
  lemma SameTextSamePolicy(a: State, b: State, st: Settings, build: string)
    requires Rendered(a, st, build).Ok? && Rendered(b, st, build).Ok? && PlainSettings(st, build)
    ensures Rendered(a, st, build) == Rendered(b, st, build) <==> Policy(a) == Policy(b)
  {
    hide Rendered, ConfigLines, Policy;
    if Rendered(a, st, build) == Rendered(b, st, build) {
      ReadingBack(a, st, build);
      ReadingBack(b, st, build);
    }
    if Policy(a) == Policy(b) {
      RenderedListing(a, st, build);
      RenderedListing(b, st, build);
      StrictListingUnique(Entries(SortByName(a.users)), Entries(SortByName(b.users)));
    }
  }

  // Any order of the user list renders to the same text, or fails at the same check.
  lemma OrderDoesNotMatter(a: State, b: State, st: Settings, build: string)
    requires multiset(a.users) == multiset(b.users)
    ensures Rendered(a, st, build) == Rendered(b, st, build)
  {
    hide ConfigLines;
    if ValidSettings(st) {
      if ValidState(a) {
        ValidityIgnoresOrder(a, b);
        SameSort(a, b);
      } else if ValidState(b) {
        ValidityIgnoresOrder(b, a);
      }
    }
  }

  lemma SameSort(a: State, b: State)
    requires ValidState(a) && ValidState(b) && multiset(a.users) == multiset(b.users)
    ensures SortByName(a.users) == SortByName(b.users)
  {
    SortSorts(a.users);
    SortSorts(b.users);
    SortIsUnique(a, SortByName(a.users), SortByName(b.users));
  }

  // Whatever algorithm sort.Slice uses, stable or not, it produces the list the model sorts to.
  lemma {:induction false} SortIsUnique(s: State, x: seq<User>, y: seq<User>)
    requires ValidState(s) && multiset(x) == multiset(y) == multiset(s.users)
    requires SortedByName(x) && SortedByName(y)
    ensures x == y
  {
    SortedValidIsStrict(s, x);
    SortedValidIsStrict(s, y);
    StrictListingUnique(Entries(x), Entries(y));
    forall i | 0 <= i < |x| ensures x[i] == y[i] {
      assert Entries(x)[i] == Entries(y)[i];
      assert x[i] in multiset(y);
      var j :| 0 <= j < |y| && y[j] == x[i];
      assert Entries(y)[j].name == Entries(y)[i].name;
      LessTotal(y[i].username, y[j].username);
    }
  }
}
