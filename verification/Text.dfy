// Characters, lines, words, decimal numbers and string order: what Go's strings and strconv
// packages contribute to the config printer, the log parser and the sort by username.
module Text {

  import opened Wrappers

  predicate IsDigit(c: char) {
    '0' <= c <= '9'
  }

  predicate IsAlnum(c: char) {
    'a' <= c <= 'z' || 'A' <= c <= 'Z' || IsDigit(c)
  }

  // The characters unicode.IsSpace accepts, which strings.Fields splits at.
  predicate IsSpace(c: char) {
    '\t' <= c <= '\r' || c == ' ' || c == '\U{0085}' || c == '\U{00A0}' || c == '\U{1680}'
    || '\U{2000}' <= c <= '\U{200A}' || c == '\U{2028}' || c == '\U{2029}' || c == '\U{202F}'
    || c == '\U{205F}' || c == '\U{3000}'
  }

  predicate Without(s: string, stop: char -> bool) {
    forall i | 0 <= i < |s| :: !stop(s[i])
  }

  // The length of the longest prefix of s that holds no stop character.
  function Until(s: string, stop: char -> bool): (n: nat)
    ensures n <= |s| && Without(s[..n], stop)
    ensures n < |s| ==> stop(s[n])
  {
    if s == "" || stop(s[0]) then 0 else
      var n := 1 + Until(s[1..], stop);
      assert s[..n] == [s[0]] + s[1..][..n - 1];
      n
  }

  lemma {:induction false} UntilIs(s: string, stop: char -> bool, k: nat)
    requires k <= |s| && Without(s[..k], stop)
    requires k < |s| ==> stop(s[k])
    ensures Until(s, stop) == k
  {
    if k > 0 {
      var rest := s[1..][..k - 1];
      assert !stop(s[..k][0]);
      forall i | 0 <= i < |rest| ensures !stop(rest[i]) {
        assert rest[i] == s[..k][i + 1];
      }
      UntilIs(s[1..], stop, k - 1);
    }
  }

  // ---- order ----

  // Go's string comparison; byte order of UTF-8 is code point order.
  predicate Less(a: string, b: string) {
    b != "" && (a == "" || a[0] < b[0] || (a[0] == b[0] && Less(a[1..], b[1..])))
  }

  lemma {:induction false} LessTransitive(a: string, b: string, c: string)
    requires Less(a, b) && Less(b, c)
    ensures Less(a, c)
  {
    if a != "" && a[0] == b[0] == c[0] {
      LessTransitive(a[1..], b[1..], c[1..]);
    }
  }

  lemma {:induction false} LessTotal(a: string, b: string)
    ensures a == b || Less(a, b) || Less(b, a)
    ensures !(Less(a, b) && Less(b, a))
    ensures !Less(a, a)
  {
    if a != "" {
      LessTotal(a[1..], a[1..]);
      if b != "" {
        LessTotal(a[1..], b[1..]);
        if a[0] == b[0] && a[1..] == b[1..] {
          assert a == [a[0]] + a[1..] == b;
        }
      }
    }
  }

  // ---- decimal numbers ----

  predicate AllDigits(s: string) {
    forall i | 0 <= i < |s| :: IsDigit(s[i])
  }

  function FormatNat(n: nat): (s: string)
    ensures s != "" && AllDigits(s)
  {
    if n < 10 then ['0' + n as char] else FormatNat(n / 10) + ['0' + (n % 10) as char]
  }

  function ParseNat(s: string): nat
    requires AllDigits(s)
  {
    if s == "" then 0 else 10 * ParseNat(s[..|s| - 1]) + (s[|s| - 1] - '0') as nat
  }

  lemma {:induction false} ParseFormatNat(n: nat)
    ensures ParseNat(FormatNat(n)) == n
  {
    var s := FormatNat(n);
    if n >= 10 {
      ParseFormatNat(n / 10);
      assert s[..|s| - 1] == FormatNat(n / 10);
    } else {
      assert s[..|s| - 1] == "";
    }
  }

  function FormatInt(i: int): string {
    if i < 0 then "-" + FormatNat(-i) else FormatNat(i)
  }

  const MIN_INT64 := -0x8000_0000_0000_0000
  const MAX_INT64 := 0x7fff_ffff_ffff_ffff

  predicate IsInt64(i: int) {
    MIN_INT64 <= i <= MAX_INT64
  }

  // strconv.ParseInt(s, 10, 64) and strconv.Atoi: an optional sign, at least one digit, in range.
  function ParseInt64(s: string): Option<int> {
    var signed := s != "" && (s[0] == '-' || s[0] == '+');
    var digits := if signed then s[1..] else s;
    if digits == "" || !AllDigits(digits) then None else
      var n: int := ParseNat(digits);
      var v := if signed && s[0] == '-' then -n else n;
      if IsInt64(v) then Some(v) else None
  }

  lemma ParseFormatInt(i: int)
    requires IsInt64(i)
    ensures ParseInt64(FormatInt(i)) == Some(i)
  {
    hide FormatNat, ParseNat;
    if i < 0 {
      ParseFormatNat(-i);
      assert FormatInt(i)[1..] == FormatNat(-i);
    } else {
      ParseFormatNat(i);
    }
  }

  // ---- lines ----

  predicate IsNewline(c: char) {
    c == '\n'
  }

  predicate OneLine(s: string) {
    Without(s, IsNewline)
  }

  function Unlines(ls: seq<string>): string {
    if ls == [] then "" else ls[0] + "\n" + Unlines(ls[1..])
  }

  function Lines(s: string): seq<string>
    decreases |s|
  {
    if s == "" then [] else
      var k := Until(s, IsNewline);
      if k == |s| then [s] else [s[..k]] + Lines(s[k + 1..])
  }

  lemma {:induction false} UnlinesAppend(a: seq<string>, b: seq<string>)
    ensures Unlines(a + b) == Unlines(a) + Unlines(b)
  {
    if a == [] {
      assert a + b == b;
    } else {
      assert (a + b)[1..] == a[1..] + b;
      UnlinesAppend(a[1..], b);
    }
  }

  lemma UnlinesOne(l: string)
    ensures Unlines([l]) == l + "\n"
  {
    assert [l][1..] == [];
  }

  lemma {:induction false} LinesOfUnlines(ls: seq<string>)
    requires forall l | l in ls :: OneLine(l)
    ensures Lines(Unlines(ls)) == ls
  {
    if ls != [] {
      var s := Unlines(ls);
      assert s[..|ls[0]|] == ls[0];
      assert s[|ls[0]| + 1..] == Unlines(ls[1..]);
      assert ls[0] in ls;
      UntilIs(s, IsNewline, |ls[0]|);
      LinesOfUnlines(ls[1..]);
    }
  }

  // ---- words ----

  // strings.Fields: the maximal runs of non-space characters.
  function Fields(s: string): (fs: seq<string>)
    decreases |s|
  {
    if s == "" then []
    else if IsSpace(s[0]) then Fields(s[1..])
    else
      var k := Until(s, IsSpace);
      [s[..k]] + Fields(s[k..])
  }

  predicate IsWord(w: string) {
    w != "" && Without(w, IsSpace)
  }

  function TrimLeft(s: string): string {
    if s != "" && IsSpace(s[0]) then TrimLeft(s[1..]) else s
  }

  function TrimRight(s: string): string {
    if s != "" && IsSpace(s[|s| - 1]) then TrimRight(s[..|s| - 1]) else s
  }

  // strings.TrimSpace.
  function TrimSpace(s: string): string {
    TrimRight(TrimLeft(s))
  }

  // strings.Join(ws, " ").
  function Unwords(ws: seq<string>): string {
    if ws == [] then "" else if |ws| == 1 then ws[0] else ws[0] + " " + Unwords(ws[1..])
  }

  lemma FieldsOfWord(w: string, rest: string)
    requires IsWord(w)
    requires rest == "" || IsSpace(rest[0])
    ensures Fields(w + rest) == [w] + Fields(rest)
  {
    var s := w + rest;
    assert s[..|w|] == w && s[|w|..] == rest;
    UntilIs(s, IsSpace, |w|);
  }

  lemma {:induction false} FieldsOfUnwords(ws: seq<string>)
    requires forall w | w in ws :: IsWord(w)
    ensures Fields(Unwords(ws)) == ws
  {
    if ws != [] {
      assert ws[0] in ws;
      if |ws| == 1 {
        assert Unwords(ws) == ws[0] + "";
        FieldsOfWord(ws[0], "");
      } else {
        var rest := " " + Unwords(ws[1..]);
        assert Unwords(ws) == ws[0] + rest;
        FieldsOfWord(ws[0], rest);
        assert rest[1..] == Unwords(ws[1..]);
        FieldsOfUnwords(ws[1..]);
      }
    }
  }

  lemma {:induction false} FieldsAreWords(s: string)
    ensures forall w | w in Fields(s) :: IsWord(w)
    decreases |s|
  {
    if s != "" {
      if IsSpace(s[0]) {
        FieldsAreWords(s[1..]);
      } else {
        FieldsAreWords(s[Until(s, IsSpace)..]);
      }
    }
  }
}
