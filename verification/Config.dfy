// internal/engine/threeproxy/config.go: Settings and the config printer. The text is a sequence of
// characters where Go has bytes.
module Config {

  import opened Wrappers
  import opened Text
  import opened Engine

  datatype Settings = Settings(
    configFile: string, pidFile: string, counterFile: string, logFile: string,
    httpPort: int, socks5Port: int, maxConns: int, rotate: int,
    nameservers: seq<string>, setUID: string, setGID: string)

  datatype RenderError = BadSettings | BadState | BadHash(username: string)

  // Long literals are sums of short ones, whose characters the verifier can look up.
  const LOG_FORMAT := "G%t.%. %N.%p %E %U " + "%C:%c %R:%r %O %I %h %T"

  // ---- Settings.Validate ----

  predicate IsSeparator(c: char) {
    c == '/' || c == '\\'
  }

  // Some component between separators is "..".
  predicate HasTraversal(p: string)
    decreases |p|
  {
    p != "" &&
    if IsSeparator(p[0]) then HasTraversal(p[1..]) else
      var k := Until(p, IsSeparator);
      p[..k] == ".." || HasTraversal(p[k..])
  }

  predicate ValidPath(p: string) {
    && p != "" && p[0] == '/'
    && !HasTraversal(p)
    && forall i | 0 <= i < |p| :: p[i] >= ' ' && p[i] != '\U{007F}'
  }

  predicate ValidPort(p: int) {
    1 <= p <= 65535
  }

  predicate AddressChar(c: char) {
    IsDigit(c) || 'a' <= c <= 'f' || 'A' <= c <= 'F' || c == ':' || c == '.'
  }

  predicate ValidNameserver(ns: string) {
    ns != "" && forall i | 0 <= i < |ns| :: AddressChar(ns[i])
  }

  predicate ValidSettings(st: Settings) {
    && ValidPath(st.configFile) && ValidPath(st.pidFile)
    && ValidPath(st.counterFile) && ValidPath(st.logFile)
    && ValidPort(st.httpPort) && ValidPort(st.socks5Port) && st.httpPort != st.socks5Port
    && st.maxConns >= 0 && st.rotate >= 0
    && forall i | 0 <= i < |st.nameservers| :: ValidNameserver(st.nameservers[i])
  }

  // ---- engineHashRe: "$3$", 1 to 64 letters or digits, "$", 22 crypt characters ----

  predicate CryptChar(c: char) {
    IsAlnum(c) || c == '.' || c == '/'
  }

  predicate ValidSalt(s: string) {
    1 <= |s| <= 64 && forall i | 0 <= i < |s| :: IsAlnum(s[i])
  }

  predicate CryptText(s: string) {
    |s| == 22 && forall i | 0 <= i < |s| :: CryptChar(s[i])
  }

  predicate ValidHash(h: string) {
    && |h| >= 27
    && h[..3] == "$3$"
    && ValidSalt(h[3..|h| - 23])
    && h[|h| - 23] == '$'
    && CryptText(h[|h| - 22..])
  }

  // ---- what the text says about one user ----

  datatype Rule = Rule(direction: string, record: int, period: string, mb: int)

  // The effective policy of one account: protocols as a set, the quota in whole MiB, and the
  // record number only where a counter uses it.
  datatype Entry = Entry(
    name: string, hash: string, http: bool, socks: bool,
    down: int, up: int, rule: Option<Rule>)

  function EntryOf(u: User): Entry {
    Entry(u.username, u.engineHash, "http" in u.protocols, "socks5" in u.protocols,
          u.downloadBPS, u.uploadBPS,
          if u.quota.None? then None else
            Some(Rule(u.quota.value.direction, u.recordNumber, u.quota.value.period, u.quota.value.limitBytes / MIB)))
  }

  ghost function Policy(s: State): set<Entry> {
    set u | u in s.users :: EntryOf(u)
  }

  function Entries(us: seq<User>): (es: seq<Entry>)
    ensures |es| == |us| && forall i | 0 <= i < |us| :: es[i] == EntryOf(us[i])
  {
    seq(|us|, i requires 0 <= i < |us| => EntryOf(us[i]))
  }

  // ---- sort by username ----

  predicate SortedByName(us: seq<User>) {
    forall i, j | 0 <= i < j < |us| :: !Less(us[j].username, us[i].username)
  }

  function InsertByName(u: User, us: seq<User>): seq<User> {
    if us == [] || Less(u.username, us[0].username) then [u] + us
    else [us[0]] + InsertByName(u, us[1..])
  }

  function SortByName(us: seq<User>): seq<User> {
    if us == [] then [] else InsertByName(us[0], SortByName(us[1..]))
  }

  lemma {:induction false} InsertKeepsOrder(u: User, us: seq<User>)
    requires SortedByName(us)
    ensures SortedByName(InsertByName(u, us))
    ensures multiset(InsertByName(u, us)) == multiset{u} + multiset(us)
  {
    if us == [] {
    } else if Less(u.username, us[0].username) {
      forall i | 0 <= i < |us| ensures !Less(us[i].username, u.username) {
        if Less(us[i].username, u.username) {
          LessTransitive(us[i].username, u.username, us[0].username);
          LessTotal(us[i].username, us[0].username);
        }
      }
    } else {
      InsertKeepsOrder(u, us[1..]);
      var rest := InsertByName(u, us[1..]);
      assert us == [us[0]] + us[1..];
      forall i | 0 <= i < |rest| ensures !Less(rest[i].username, us[0].username) {
        assert rest[i] in multiset(rest);
        assert rest[i] == u || rest[i] in us[1..];
      }
    }
  }

  lemma {:induction false} SortSorts(us: seq<User>)
    ensures SortedByName(SortByName(us))
    ensures multiset(SortByName(us)) == multiset(us)
  {
    if us != [] {
      assert us == [us[0]] + us[1..];
      SortSorts(us[1..]);
      InsertKeepsOrder(us[0], SortByName(us[1..]));
    }
  }

  predicate StrictByName(es: seq<Entry>) {
    forall i, j | 0 <= i < j < |es| :: Less(es[i].name, es[j].name)
  }

  // Distinct names make the sorted list strict, whatever permutation sort.Slice produced.
  lemma SortedValidIsStrict(s: State, sorted: seq<User>)
    requires ValidState(s) && SortedByName(sorted) && multiset(sorted) == multiset(s.users)
    ensures ValidState(State(sorted)) && StrictByName(Entries(sorted))
    ensures forall e :: e in Entries(sorted) <==> e in Policy(s)
  {
    ValidityIgnoresOrder(s, State(sorted));
    forall i, j | 0 <= i < j < |sorted| ensures Less(sorted[i].username, sorted[j].username) {
      LessTotal(sorted[i].username, sorted[j].username);
    }
    forall e | e in Policy(s) ensures e in Entries(sorted) {
      var u :| u in s.users && EntryOf(u) == e;
      assert u in multiset(sorted);
      var i :| 0 <= i < |sorted| && sorted[i] == u;
      assert Entries(sorted)[i] == e;
    }
    forall e | e in Entries(sorted) ensures e in Policy(s) {
      var i :| 0 <= i < |sorted| && Entries(sorted)[i] == e;
      assert sorted[i] in multiset(s.users);
    }
  }

  ghost predicate SameElements(a: seq<Entry>, b: seq<Entry>) {
    forall e :: e in a <==> e in b
  }

  lemma SomeElement(a: seq<Entry>) returns (e: Entry)
    requires a != []
    ensures e in a
  {
    e := a[0];
  }

  // A strictly sorted listing of a set is unique.
  lemma {:induction false} StrictListingUnique(a: seq<Entry>, b: seq<Entry>)
    requires StrictByName(a) && StrictByName(b) && SameElements(a, b)
    ensures a == b
  {
    if a == [] || b == [] {
      if a != b {
        var e := SomeElement(a + b);
        assert false;
      }
    } else {
      StrictHeads(a, b);
      forall e ensures e in a[1..] <==> e in b[1..] {
        StrictTail(a, e);
        StrictTail(b, e);
      }
      StrictListingUnique(a[1..], b[1..]);
    }
  }

  lemma StrictTail(a: seq<Entry>, e: Entry)
    requires a != [] && StrictByName(a)
    ensures e in a[1..] <==> e in a && e != a[0]
  {
    LessTotal(a[0].name, a[0].name);
    if e in a && e != a[0] {
      var i :| 0 <= i < |a| && a[i] == e;
      assert a[1..][i - 1] == e;
    }
  }

  lemma StrictHeads(a: seq<Entry>, b: seq<Entry>)
    requires a != [] && b != [] && StrictByName(a) && StrictByName(b) && SameElements(a, b)
    ensures a[0] == b[0]
  {
    assert a[0] in a && b[0] in b;
    var i :| 0 <= i < |b| && b[i] == a[0];
    var j :| 0 <= j < |a| && a[j] == b[0];
    LessTotal(a[0].name, b[0].name);
  }

  // ---- the text ----

  // strconv.Quote on printable text.
  function Escape(s: string): string {
    if s == "" then "" else
      (if s[0] == '"' || s[0] == '\\' then ['\\', s[0]] else [s[0]]) + Escape(s[1..])
  }

  function Quote(s: string): string {
    "\"" + Escape(s) + "\""
  }

  // A backslash takes the next character as it is.
  function Unescape(s: string): string {
    if s == "" then ""
    else if s[0] == '\\' && |s| >= 2 then [s[1]] + Unescape(s[2..])
    else [s[0]] + Unescape(s[1..])
  }

  lemma {:induction false} EscapeIsLossless(s: string)
    ensures Unescape(Escape(s)) == s
  {
    if s != "" {
      EscapeIsLossless(s[1..]);
      var head := if s[0] == '"' || s[0] == '\\' then ['\\', s[0]] else [s[0]];
      assert Escape(s) == head + Escape(s[1..]);
      assert Escape(s)[|head|..] == Escape(s[1..]);
    }
  }

  function PeriodLetter(period: string): string {
    if period == "daily" then "D" else if period == "weekly" then "W" else "M"
  }

  function NameserverLines(ns: seq<string>): seq<string> {
    if ns == [] then [] else NameserverLines(ns[..|ns| - 1]) + ["nserver " + ns[|ns| - 1]]
  }

  function IdentityLines(st: Settings, build: string): seq<string> {
    ["# Managed by xoxproxy — DO NOT EDIT.",
     "# Regenerated and deployed by the " + "control plane; manual changes are lost.",
     "# generated by " + build,
     "config " + Quote(st.configFile),
     "pidfile " + Quote(st.pidFile)]
    + (if st.setGID != "" then ["setgid " + st.setGID] else [])
    + (if st.setUID != "" then ["setuid " + st.setUID] else [])
  }

  function ResolverLines(st: Settings): seq<string> {
    NameserverLines(st.nameservers)
    + (if st.nameservers != [] then ["nscache 65535", "nscache6 65535"] else [])
  }

  function FileLines(st: Settings): seq<string> {
    (if st.maxConns > 0 then ["maxconn " + FormatInt(st.maxConns)] else [])
    + ["log " + Quote(st.logFile) + " D"]
    + (if st.rotate > 0 then ["rotate " + FormatInt(st.rotate)] else [])
    + ["logformat \"" + LOG_FORMAT + "\"", "counter " + Quote(st.counterFile)]
  }

  function HeaderLines(st: Settings, build: string): seq<string> {
    IdentityLines(st, build) + ResolverLines(st) + FileLines(st)
  }

  function AccountLine(e: Entry): string {
    "users " + Quote(e.name + ":CR:" + e.hash)
  }

  function AccountLines(es: seq<Entry>): seq<string> {
    if es == [] then [] else AccountLines(es[..|es| - 1]) + [AccountLine(es[|es| - 1])]
  }

  function AccountSection(es: seq<Entry>): seq<string> {
    ["", "# --- accounts ---", "auth strong"] + AccountLines(es)
  }

  function DownLines(e: Entry): seq<string> {
    if e.down > 0 then ["bandlimin " + FormatInt(e.down) + " " + e.name] else []
  }

  function UpLines(e: Entry): seq<string> {
    if e.up > 0 then ["bandlimout " + FormatInt(e.up) + " " + e.name] else []
  }

  function RuleLines(e: Entry): seq<string> {
    match e.rule
    case None => []
    case Some(r) =>
      ["count" + r.direction + " " + FormatInt(r.record) + " " + PeriodLetter(r.period)
       + " " + FormatInt(r.mb) + " " + e.name]
  }

  function UserLimitLines(e: Entry): seq<string> {
    DownLines(e) + UpLines(e) + RuleLines(e)
  }

  function LimitLines(es: seq<Entry>): seq<string> {
    if es == [] then [] else LimitLines(es[..|es| - 1]) + UserLimitLines(es[|es| - 1])
  }

  function LimitSection(es: seq<Entry>): seq<string> {
    ["", "# --- limits ---"] + LimitLines(es)
  }

  function AllowLines(es: seq<Entry>, http: bool): seq<string> {
    if es == [] then [] else
      var e := es[|es| - 1];
      AllowLines(es[..|es| - 1], http) + (if (if http then e.http else e.socks) then ["allow " + e.name] else [])
  }

  function ServiceLines(name: string, directive: string, port: int, es: seq<Entry>, http: bool): seq<string> {
    ["", "# --- " + name + " ---", "flush"] + AllowLines(es, http) + [directive + " -p" + FormatInt(port)]
  }

  function ConfigLines(es: seq<Entry>, st: Settings, build: string): seq<string> {
    HeaderLines(st, build) + AccountSection(es) + LimitSection(es)
    + ServiceLines("HTTP proxy", "proxy", st.httpPort, es, true)
    + ServiceLines("SOCKS5 proxy", "socks", st.socks5Port, es, false)
  }

  // Render as a function: the text, or the first check that failed.
  function Rendered(s: State, st: Settings, build: string): Result<string, RenderError> {
    if !ValidSettings(st) then Err(BadSettings)
    else if !ValidState(s) then Err(BadState)
    else
      var us := SortByName(s.users);
      match FirstBadHash(us)
      case Some(name) => Err(BadHash(name))
      case None => Ok(Unlines(ConfigLines(Entries(us), st, build)))
  }

  function FirstBadHash(us: seq<User>): (bad: Option<string>)
    ensures bad.None? <==> forall i | 0 <= i < |us| :: ValidHash(us[i].engineHash)
    ensures bad.Some? ==> exists i | 0 <= i < |us| :: us[i].username == bad.value && !ValidHash(us[i].engineHash)
  {
    if us == [] then None
    else if !ValidHash(us[0].engineHash) then Some(us[0].username)
    else
      var bad := FirstBadHash(us[1..]);
      assert us == [us[0]] + us[1..];
      bad
  }

  // ---- Render: the loops over the sorted users ----

  // One formatted write to the builder: b always holds the text of the lines written so far.
  method Write(b: string, ghost ls: seq<string>, l: string) returns (b': string, ghost ls': seq<string>)
    requires b == Unlines(ls)
    ensures ls' == ls + [l] && b' == Unlines(ls')
  {
    b' := b + l + "\n";
    ls' := ls + [l];
    UnlinesAppend(ls, [l]);
    UnlinesOne(l);
  }

  method HasProtocol(u: User, proto: string) returns (has: bool)
    ensures has <==> proto in u.protocols
  {
    for i := 0 to |u.protocols|
      invariant proto !in u.protocols[..i]
    {
      if u.protocols[i] == proto {
        return true;
      }
    }
    return false;
  }

  method WriteIdentity(b0: string, ghost ls0: seq<string>, st: Settings, build: string)
    returns (b: string, ghost ls: seq<string>)
    requires b0 == Unlines(ls0)
    ensures ls == ls0 + IdentityLines(st, build)
    ensures b == Unlines(ls0 + IdentityLines(st, build))
  {
    hide Quote, Unlines;
    b, ls := Write(b0, ls0, "# Managed by xoxproxy — DO NOT EDIT.");
    b, ls := Write(b, ls, "# Regenerated and deployed by the " + "control plane; manual changes are lost.");
    b, ls := Write(b, ls, "# generated by " + build);
    b, ls := Write(b, ls, "config " + Quote(st.configFile));
    b, ls := Write(b, ls, "pidfile " + Quote(st.pidFile));
    if st.setGID != "" {
      b, ls := Write(b, ls, "setgid " + st.setGID);
    }
    if st.setUID != "" {
      b, ls := Write(b, ls, "setuid " + st.setUID);
    }
  }

  method WriteResolver(b0: string, ghost ls0: seq<string>, st: Settings)
    returns (b: string, ghost ls: seq<string>)
    requires b0 == Unlines(ls0)
    ensures ls == ls0 + ResolverLines(st)
    ensures b == Unlines(ls0 + ResolverLines(st))
  {
    b, ls := b0, ls0;
    for i := 0 to |st.nameservers|
      invariant ls == ls0 + NameserverLines(st.nameservers[..i]) && b == Unlines(ls)
    {
      assert st.nameservers[..i + 1][..i] == st.nameservers[..i];
      b, ls := Write(b, ls, "nserver " + st.nameservers[i]);
    }
    assert st.nameservers[..|st.nameservers|] == st.nameservers;
    if |st.nameservers| > 0 {
      b, ls := Write(b, ls, "nscache 65535");
      b, ls := Write(b, ls, "nscache6 65535");
    }
  }

  method WriteFiles(b0: string, ghost ls0: seq<string>, st: Settings)
    returns (b: string, ghost ls: seq<string>)
    requires b0 == Unlines(ls0)
    ensures ls == ls0 + FileLines(st)
    ensures b == Unlines(ls0 + FileLines(st))
  {
    b, ls := b0, ls0;
    if st.maxConns > 0 {
      b, ls := Write(b, ls, "maxconn " + FormatInt(st.maxConns));
    }
    b, ls := Write(b, ls, "log " + Quote(st.logFile) + " D");
    if st.rotate > 0 {
      b, ls := Write(b, ls, "rotate " + FormatInt(st.rotate));
    }
    b, ls := Write(b, ls, "logformat \"" + LOG_FORMAT + "\"");
    b, ls := Write(b, ls, "counter " + Quote(st.counterFile));
  }

  method WriteAccounts(b0: string, ghost ls0: seq<string>, us: seq<User>)
    returns (b: string, ghost ls: seq<string>)
    requires b0 == Unlines(ls0)
    ensures ls == ls0 + AccountSection(Entries(us))
    ensures b == Unlines(ls0 + AccountSection(Entries(us)))
  {
    b, ls := Write(b0, ls0, "");
    b, ls := Write(b, ls, "# --- accounts ---");
    b, ls := Write(b, ls, "auth strong");
    ghost var ls1 := ls;
    for i := 0 to |us|
      invariant ls == ls1 + AccountLines(Entries(us[..i])) && b == Unlines(ls)
    {
      assert Entries(us[..i + 1])[..i] == Entries(us[..i]);
      b, ls := Write(b, ls, "users " + Quote(us[i].username + ":CR:" + us[i].engineHash));
    }
    assert us[..|us|] == us;
  }

  method WriteUserLimits(b0: string, ghost ls0: seq<string>, u: User)
    returns (b: string, ghost ls: seq<string>)
    requires b0 == Unlines(ls0)
    ensures ls == ls0 + UserLimitLines(EntryOf(u))
    ensures b == Unlines(ls0 + UserLimitLines(EntryOf(u)))
  {
    b, ls := b0, ls0;
    if u.downloadBPS > 0 {
      b, ls := Write(b, ls, "bandlimin " + FormatInt(u.downloadBPS) + " " + u.username);
    }
    if u.uploadBPS > 0 {
      b, ls := Write(b, ls, "bandlimout " + FormatInt(u.uploadBPS) + " " + u.username);
    }
    if u.quota.Some? {
      var q := u.quota.value;
      var mb := q.limitBytes / MIB;
      b, ls := Write(b, ls, "count" + q.direction + " " + FormatInt(u.recordNumber) + " "
        + PeriodLetter(q.period) + " " + FormatInt(mb) + " " + u.username);
    }
  }

  method WriteLimits(b0: string, ghost ls0: seq<string>, us: seq<User>)
    returns (b: string, ghost ls: seq<string>)
    requires b0 == Unlines(ls0)
    ensures ls == ls0 + LimitSection(Entries(us))
    ensures b == Unlines(ls0 + LimitSection(Entries(us)))
  {
    hide UserLimitLines;
    b, ls := Write(b0, ls0, "");
    b, ls := Write(b, ls, "# --- limits ---");
    ghost var ls1 := ls;
    for i := 0 to |us|
      invariant ls == ls1 + LimitLines(Entries(us[..i])) && b == Unlines(ls)
    {
      assert Entries(us[..i + 1])[..i] == Entries(us[..i]);
      b, ls := WriteUserLimits(b, ls, us[i]);
    }
    assert us[..|us|] == us;
  }

  // renderService.
  method WriteService(b0: string, ghost ls0: seq<string>, name: string, directive: string, port: int,
                      us: seq<User>, proto: string)
    returns (b: string, ghost ls: seq<string>)
    requires KnownProtocol(proto) && b0 == Unlines(ls0)
    ensures ls == ls0 + ServiceLines(name, directive, port, Entries(us), proto == "http")
    ensures b == Unlines(ls0 + ServiceLines(name, directive, port, Entries(us), proto == "http"))
  {
    hide Unlines, FormatInt;
    ghost var http := proto == "http";
    b, ls := Write(b0, ls0, "");
    b, ls := Write(b, ls, "# --- " + name + " ---");
    b, ls := Write(b, ls, "flush");
    ghost var ls1 := ls;
    for i := 0 to |us|
      invariant ls == ls1 + AllowLines(Entries(us[..i]), http) && b == Unlines(ls)
    {
      assert Entries(us[..i + 1])[..i] == Entries(us[..i]);
      var has := HasProtocol(us[i], proto);
      if has {
        b, ls := Write(b, ls, "allow " + us[i].username);
      }
    }
    assert us[..|us|] == us;
    b, ls := Write(b, ls, directive + " -p" + FormatInt(port));
  }

  method WriteConfig(us: seq<User>, st: Settings, build: string) returns (b: string)
    ensures b == Unlines(ConfigLines(Entries(us), st, build))
  {
    hide IdentityLines, ResolverLines, FileLines, AccountSection, LimitSection, ServiceLines, Entries;
    ghost var ls: seq<string>;
    b, ls := WriteIdentity("", [], st, build);
    b, ls := WriteResolver(b, ls, st);
    b, ls := WriteFiles(b, ls, st);
    b, ls := WriteAccounts(b, ls, us);
    b, ls := WriteLimits(b, ls, us);
    b, ls := WriteService(b, ls, "HTTP proxy", "proxy", st.httpPort, us, "http");
    b, ls := WriteService(b, ls, "SOCKS5 proxy", "socks", st.socks5Port, us, "socks5");
    assert ls == ConfigLines(Entries(us), st, build);
  }

  method Render(s: State, st: Settings, build: string) returns (r: Result<string, RenderError>)
    ensures r == Rendered(s, st, build)
  {
    if !ValidSettings(st) {
      return Err(BadSettings);
    }
    var errs := Validate(s);
    if errs != 0 {
      return Err(BadState);
    }
    hide SortByName, ValidHash, ConfigLines, Entries;
    var us := SortByName(s.users);
    for i := 0 to |us|
      invariant FirstBadHash(us) == FirstBadHash(us[i..])
    {
      if !ValidHash(us[i].engineHash) {
        return Err(BadHash(us[i].username));
      }
      assert us[i..][1..] == us[i + 1..];
    }
    var b := WriteConfig(us, st, build);
    return Ok(b);
  }
}
