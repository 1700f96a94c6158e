// internal/engine/threeproxy/crypt.go: the engine's verifier format and salts. BLAKE2b is a parameter;
// the characters of passwords and salts stand for bytes.
module Crypt {

  import opened Wrappers
  import opened Text
  import opened Config

  type Byte = i: int | 0 <= i < 256

  // A 16-byte digest.
  type Sum = s: seq<Byte> | |s| == 16 witness seq(16, _ => 0)

  // In parts, so that the verifier can look up their characters.
  const ITOA64 := "./0123456789" + "ABCDEFGHIJKLMNOPQRSTUVWXYZ" + "abcdefghijklmnopqrstuvwxyz"
  const SALT_ALPHABET := "ABCDEFGHIJKLMNOPQRSTUVWXYZ" + "abcdefghijklmnopqrstuvwxyz" + "0123456789"

  // ---- the alphabets ----

  function Symbol(v: int): (c: char)
    requires 0 <= v < 64
    ensures CryptChar(c)
  {
    if v < 2 then '.' + v as char
    else if v < 12 then '0' + (v - 2) as char
    else if v < 38 then 'A' + (v - 12) as char
    else 'a' + (v - 38) as char
  }

  function SaltSymbol(v: int): (c: char)
    requires 0 <= v < 62
    ensures IsAlnum(c)
  {
    if v < 26 then 'A' + v as char
    else if v < 52 then 'a' + (v - 26) as char
    else '0' + (v - 52) as char
  }

  lemma Alphabets()
    ensures |ITOA64| == 64 && forall v | 0 <= v < 64 :: ITOA64[v] == Symbol(v)
    ensures |SALT_ALPHABET| == 62 && forall v | 0 <= v < 62 :: SALT_ALPHABET[v] == SaltSymbol(v)
  {
  }

  function Value(c: char): int {
    if c <= '/' then c as int - '.' as int
    else if c <= '9' then c as int - '0' as int + 2
    else if c <= 'Z' then c as int - 'A' as int + 12
    else c as int - 'a' as int + 38
  }

  // ---- base 64 digits, least significant first ----

  function Digits(v: nat, n: nat): (s: string)
    ensures |s| == n && forall i | 0 <= i < n :: CryptChar(s[i])
  {
    if n == 0 then "" else [Symbol(v % 64)] + Digits(v / 64, n - 1)
  }

  function Number(s: string): int {
    if s == "" then 0 else Value(s[0]) + 64 * Number(s[1..])
  }

  function Pow64(n: nat): nat {
    if n == 0 then 1 else 64 * Pow64(n - 1)
  }

  lemma {:induction false} NumberOfDigits(v: nat, n: nat)
    requires v < Pow64(n)
    ensures Number(Digits(v, n)) == v
    decreases n
  {
    if n > 0 {
      NumberOfDigits(v / 64, n - 1);
      assert Digits(v, n)[1..] == Digits(v / 64, n - 1);
    }
  }

  // The put loop: n characters of v, six bits at a time.
  method Put(v: nat, n: nat) returns (s: string)
    ensures s == Digits(v, n)
  {
    Alphabets();
    s := "";
    var rest := v;
    for i := 0 to n
      invariant s + Digits(rest, n - i) == Digits(v, n)
    {
      s := s + [ITOA64[rest % 64]];
      rest := rest / 64;
    }
    assert s + "" == s;
  }

  // ---- cryptB64 ----

  function Joined(a: int, b: int, c: int): int {
    a * 0x10000 + b * 0x100 + c
  }

  // Three bytes, the first the most significant.
  function Group(f: Sum, i: nat, j: nat, k: nat): (v: nat)
    requires i < 16 && j < 16 && k < 16
    ensures v < 0x1_000000
  {
    Joined(f[i], f[j], f[k])
  }

  function Encoded(f: Sum): string {
    Digits(Group(f, 0, 6, 12), 4) + Digits(Group(f, 1, 7, 13), 4) + Digits(Group(f, 2, 8, 14), 4)
    + Digits(Group(f, 3, 9, 15), 4) + Digits(Group(f, 4, 10, 5), 4) + Digits(f[11], 2)
  }

  method CryptB64(f: Sum) returns (b: string)
    ensures b == Encoded(f)
  {
    hide Digits, Group;
    b := Put(Group(f, 0, 6, 12), 4);
    var part := Put(Group(f, 1, 7, 13), 4);
    b := b + part;
    part := Put(Group(f, 2, 8, 14), 4);
    b := b + part;
    part := Put(Group(f, 3, 9, 15), 4);
    b := b + part;
    part := Put(Group(f, 4, 10, 5), 4);
    b := b + part;
    part := Put(f[11], 2);
    b := b + part;
  }

  // A decoder: the bytes at the positions the encoder took them from.
  function High(n: int): int { n / 0x10000 }
  function Middle(n: int): int { n / 0x100 % 0x100 }
  function Low(n: int): int { n % 0x100 }

  function Decoded(s: string): seq<int>
    requires |s| == 22
  {
    var a, b, c := Number(s[..4]), Number(s[4..8]), Number(s[8..12]);
    var d, e, f := Number(s[12..16]), Number(s[16..20]), Number(s[20..]);
    [High(a), High(b), High(c), High(d), High(e), Low(e), Middle(a), Middle(b), Middle(c), Middle(d), Middle(e),
     f, Low(a), Low(b), Low(c), Low(d)]
  }

  lemma GroupBytes(f: Sum, i: nat, j: nat, k: nat)
    requires i < 16 && j < 16 && k < 16
    ensures Number(Digits(Group(f, i, j, k), 4)) == Group(f, i, j, k)
    ensures High(Group(f, i, j, k)) == f[i] && Middle(Group(f, i, j, k)) == f[j] && Low(Group(f, i, j, k)) == f[k]
  {
    hide Digits, Number, Joined;
    assert Pow64(4) == 0x1_000000;
    NumberOfDigits(Group(f, i, j, k), 4);
    JoinedParts(f[i], f[j], f[k]);
  }

  lemma JoinedParts(a: int, b: int, c: int)
    requires 0 <= a < 256 && 0 <= b < 256 && 0 <= c < 256
    ensures High(Joined(a, b, c)) == a && Middle(Joined(a, b, c)) == b && Low(Joined(a, b, c)) == c
  {
    assert Joined(a, b, c) == 0x100 * (0x100 * a + b) + c;
    assert Joined(a, b, c) / 0x100 == 0x100 * a + b;
  }

  // The 22 characters carry all 16 bytes.
  lemma DecodesBack(f: Sum)
    ensures CryptText(Encoded(f)) && Decoded(Encoded(f)) == f
  {
    hide Digits, Group, Number, High, Middle, Low;
    var s := Encoded(f);
    Slices(f);
    GroupBytes(f, 0, 6, 12);
    GroupBytes(f, 1, 7, 13);
    GroupBytes(f, 2, 8, 14);
    GroupBytes(f, 3, 9, 15);
    GroupBytes(f, 4, 10, 5);
    LastByte(f);
  }

  lemma LastByte(f: Sum)
    ensures Number(Digits(f[11], 2)) == f[11]
  {
    assert Pow64(2) == 4096;
    NumberOfDigits(f[11], 2);
  }

  lemma Slices(f: Sum)
    ensures var s := Encoded(f);
      && CryptText(s)
      && s[..4] == Digits(Group(f, 0, 6, 12), 4) && s[4..8] == Digits(Group(f, 1, 7, 13), 4)
      && s[8..12] == Digits(Group(f, 2, 8, 14), 4) && s[12..16] == Digits(Group(f, 3, 9, 15), 4)
      && s[16..20] == Digits(Group(f, 4, 10, 5), 4) && s[20..] == Digits(f[11], 2)
  {
    hide Digits, Group;
  }

  // ---- CRHash ----

  // What is hashed: the password with its terminating NUL, then the salt.
  function Message(password: string, salt: string): string {
    password + "\0" + salt
  }

  function Verifier(salt: string, sum: Sum): string {
    "$3$" + salt + "$" + Encoded(sum)
  }

  method CRHash(password: string, salt: string, blake: string -> Sum) returns (h: string)
    ensures h == "$3$" + salt + "$" + Encoded(blake(password + "\0" + salt))
  {
    hide Encoded;
    var message := password;
    message := message + "\0";
    message := message + salt;
    var text := CryptB64(blake(message));
    h := "$3$" + salt + "$" + text;
  }

  // A verifier over a salt of 1 to 64 letters and digits is exactly of the shape Render accepts.
  lemma VerifierIsAccepted(salt: string, sum: Sum)
    requires ValidSalt(salt)
    ensures ValidHash(Verifier(salt, sum))
  {
    hide Encoded, Decoded, ValidSalt;
    DecodesBack(sum);
    var h, text := Verifier(salt, sum), Encoded(sum);
    assert |h| == |salt| + 26;
    assert h[..3] == "$3$" && h[3..|h| - 23] == salt && h[|h| - 22..] == text;
    SaltLength(salt);
  }

  lemma SaltLength(salt: string)
    requires ValidSalt(salt)
    ensures 1 <= |salt| <= 64
  {
  }

  // Two verifiers are equal exactly when salt and digest are: nothing of either is lost.
  lemma VerifierIsLossless(salt1: string, sum1: Sum, salt2: string, sum2: Sum)
    ensures Verifier(salt1, sum1) == Verifier(salt2, sum2) <==> salt1 == salt2 && sum1 == sum2
  {
    hide Encoded, Decoded;
    DecodesBack(sum1);
    DecodesBack(sum2);
    var h1, h2 := Verifier(salt1, sum1), Verifier(salt2, sum2);
    assert |h1| == |salt1| + 26 && |h2| == |salt2| + 26;
    assert h1[3..|h1| - 23] == salt1 && h2[3..|h2| - 23] == salt2;
    assert h1[|h1| - 22..] == Encoded(sum1) && h2[|h2| - 22..] == Encoded(sum2);
  }

  // The terminating NUL keeps password and salt apart: no two pairs are hashed as the same bytes.
  lemma MessageIsUnambiguous(password1: string, salt1: string, password2: string, salt2: string)
    requires ValidSalt(salt1) && ValidSalt(salt2)
    ensures Message(password1, salt1) == Message(password2, salt2) ==> password1 == password2 && salt1 == salt2
  {
    var m1, m2 := Message(password1, salt1), Message(password2, salt2);
    if m1 == m2 {
      if |salt1| < |salt2| {
        NulBefore(password1, salt1, password2, salt2);
      } else if |salt2| < |salt1| {
        NulBefore(password2, salt2, password1, salt1);
      }
      assert m1[..|password1|] == password1 && m2[..|password2|] == password2;
      assert m1[|password1| + 1..] == salt1 && m2[|password2| + 1..] == salt2;
    }
  }

  lemma NulBefore(password1: string, salt1: string, password2: string, salt2: string)
    requires ValidSalt(salt2) && |salt1| < |salt2|
    ensures Message(password1, salt1) != Message(password2, salt2)
  {
    var m1, m2 := Message(password1, salt1), Message(password2, salt2);
    var i := |m2| - 1 - |salt1|;
    assert m1[|m1| - 1 - |salt1|] == '\0';
    assert m2[i] == salt2[i - |password2| - 1];
    assert IsAlnum(m2[i]);
  }

  // ---- NewSalt ----

  function CharsOf(bytes: seq<Byte>): (s: string)
    ensures |s| == |bytes| && forall i | 0 <= i < |s| :: s[i] == bytes[i] as char
  {
    seq(|bytes|, i requires 0 <= i < |bytes| => bytes[i] as char)
  }

  // buf holds what the entropy source delivered and is overwritten in place.
  method NewSalt(buf: array<Byte>, entropy: bool) returns (r: Result<string, ()>)
    requires buf.Length == 16
    modifies buf
    ensures r.Ok? <==> entropy
    ensures r.Ok? ==> ValidSalt(r.value) && |r.value| == 16
                      && forall i | 0 <= i < 16 :: r.value[i] == SaltSymbol(old(buf[i]) % 62)
  {
    if !entropy {
      return Err(());
    }
    Alphabets();
    ghost var was := buf[..];
    for i := 0 to buf.Length
      invariant forall k | 0 <= k < i :: buf[k] == SaltSymbol(was[k] % 62) as int
      invariant forall k | i <= k < buf.Length :: buf[k] == was[k]
    {
      buf[i] := SALT_ALPHABET[buf[i] % |SALT_ALPHABET|] as int;
    }
    return Ok(CharsOf(buf[..]));
  }

  // NewEngineHash: every stored verifier is one Render accepts.
  method NewEngineHash(password: string, buf: array<Byte>, entropy: bool, blake: string -> Sum) returns (r: Result<string, ()>)
    requires buf.Length == 16
    modifies buf
    ensures r.Ok? <==> entropy
    ensures r.Ok? ==> ValidHash(r.value)
    ensures r.Ok? ==>
              (exists salt ::
                 && ValidSalt(salt) && |salt| == 16
                 && (forall i | 0 <= i < 16 :: salt[i] == SaltSymbol(old(buf[i]) % 62))
                 && r.value == "$3$" + salt + "$" + Encoded(blake(password + "\0" + salt)))
  {
    hide Encoded;
    var salt := NewSalt(buf, entropy);
    if salt.Err? {
      return Err(());
    }
    var h := CRHash(password, salt.value, blake);
    VerifierIsAccepted(salt.value, blake(Message(password, salt.value)));
    return Ok(h);
  }
}
