// internal/engine/engine.go: the desired state of the data plane and the validation every
// renderer relies on.
module Engine {

  import opened Wrappers
  import opened Text

  const MIB := 1024 * 1024
  const USERNAME_MAX_LEN := 64

  datatype Quota = Quota(period: string, limitBytes: int, direction: string)

  datatype User = User(
    username: string,
    engineHash: string,
    recordNumber: int,
    protocols: seq<string>,
    downloadBPS: int,
    uploadBPS: int,
    quota: Option<Quota>)

  datatype State = State(users: seq<User>)

  // ---- what a valid state is ----

  predicate UsernameChar(c: char) {
    IsAlnum(c) || c == '.' || c == '_' || c == '-'
  }

  predicate ValidUsername(name: string) {
    && 1 <= |name| <= USERNAME_MAX_LEN
    && IsAlnum(name[0])
    && forall i | 0 <= i < |name| :: UsernameChar(name[i])
  }

  predicate KnownProtocol(p: string) {
    p == "http" || p == "socks5"
  }

  predicate Distinct<T(==)>(s: seq<T>) {
    forall i, j | 0 <= i < j < |s| :: s[i] != s[j]
  }

  predicate ValidProtocols(ps: seq<string>) {
    Distinct(ps) && forall i | 0 <= i < |ps| :: KnownProtocol(ps[i])
  }

  predicate ValidQuota(q: Quota) {
    && q.period in {"daily", "weekly", "monthly"}
    && q.direction in {"in", "out", "all"}
    && q.limitBytes >= MIB
  }

  predicate ValidLimits(u: User) {
    && u.downloadBPS >= 0 && u.uploadBPS >= 0
    && ValidProtocols(u.protocols)
    && (u.quota.Some? ==> ValidQuota(u.quota.value))
  }

  predicate ValidUser(u: User) {
    && ValidUsername(u.username)
    && u.recordNumber >= 1
    && ValidLimits(u)
  }

  predicate DistinctNames(us: seq<User>) {
    forall i, j | 0 <= i < j < |us| :: us[i].username != us[j].username
  }

  predicate DistinctRecords(us: seq<User>) {
    forall i, j | 0 <= i < j < |us| :: us[i].recordNumber != us[j].recordNumber
  }

  predicate ValidState(s: State) {
    && (forall i | 0 <= i < |s.users| :: ValidUser(s.users[i]))
    && DistinctNames(s.users)
    && DistinctRecords(s.users)
  }

  // ---- the validators ----

  // ValidateUsername: a scan that stops at the first offending character.
  method ValidateUsername(name: string) returns (ok: bool)
    ensures ok <==> ValidUsername(name)
  {
    if name == "" || |name| > USERNAME_MAX_LEN {
      return false;
    }
    for i := 0 to |name|
      invariant forall k | 0 <= k < i :: UsernameChar(name[k])
      invariant i > 0 ==> IsAlnum(name[0])
    {
      var c := name[i];
      if IsAlnum(c) {
      } else if c == '.' || c == '_' || c == '-' {
        if i == 0 {
          return false;
        }
      } else {
        return false;
      }
    }
    return true;
  }

  // The loop over one user's protocols; the result counts the errors appended.
  method ProtocolErrors(ps: seq<string>) returns (errs: nat)
    ensures errs == 0 <==> ValidProtocols(ps)
  {
    errs := 0;
    var seen := {};
    for i := 0 to |ps|
      invariant seen == set k | 0 <= k < i :: ps[k]
      invariant errs == 0 <==> ValidProtocols(ps[..i])
    {
      assert ps[..i + 1] == ps[..i] + [ps[i]];
      assert seen == set k | 0 <= k < i :: ps[..i][k];
      if !KnownProtocol(ps[i]) {
        errs := errs + 1;
      }
      if ps[i] in seen {
        errs := errs + 1;
      }
      seen := seen + {ps[i]};
    }
    assert ps[..|ps|] == ps;
  }

  // State.Validate: accumulate every error; nil exactly when none was appended.
  method Validate(s: State) returns (errs: nat)
    ensures errs == 0 <==> ValidState(s)
  {
    hide ValidUsername, ValidLimits, ValidState;
    errs := 0;
    var us := s.users;
    assert us[..0] == [];
    assert ValidState(State(us[..0])) by {
      NoUsersValid();
    }
    var seenNames, seenRecords := {}, {};
    for i := 0 to |us|
      invariant seenNames == set k | 0 <= k < i :: us[k].username
      invariant seenRecords == set k | 0 <= k < i :: us[k].recordNumber
      invariant errs == 0 <==> ValidState(State(us[..i]))
    {
      var u := us[i];
      OneMoreUser(us, i);

      var named := ValidateUsername(u.username);
      if !named || u.username in seenNames {
        errs := errs + 1;
      }
      seenNames := seenNames + {u.username};

      if u.recordNumber < 1 || u.recordNumber in seenRecords {
        errs := errs + 1;
      }
      seenRecords := seenRecords + {u.recordNumber};

      var limitErrs := LimitErrors(u);
      errs := errs + limitErrs;
    }
    assert us[..|us|] == us;
  }

  // The part of the loop that looks at bandwidth, protocols and quota.
  method LimitErrors(u: User) returns (errs: nat)
    ensures errs == 0 <==> ValidLimits(u)
  {
    errs := 0;
    if u.downloadBPS < 0 || u.uploadBPS < 0 {
      errs := errs + 1;
    }
    var protocolErrs := ProtocolErrors(u.protocols);
    errs := errs + protocolErrs;
    if u.quota.Some? {
      var q := u.quota.value;
      if q.period !in {"daily", "weekly", "monthly"} {
        errs := errs + 1;
      }
      if q.direction !in {"in", "out", "all"} {
        errs := errs + 1;
      }
      if q.limitBytes < MIB {
        errs := errs + 1;
      }
    }
  }

  lemma NoUsersValid()
    ensures ValidState(State([]))
  {
  }

  lemma OneMoreUser(us: seq<User>, i: nat)
    requires i < |us|
    ensures ValidState(State(us[..i + 1]))
            <==> ValidState(State(us[..i])) && ValidUser(us[i])
                 && (forall k | 0 <= k < i :: us[k].username != us[i].username)
                 && (forall k | 0 <= k < i :: us[k].recordNumber != us[i].recordNumber)
  {
    hide ValidUser;
    var before, all := us[..i], us[..i + 1];
    assert all == before + [us[i]];
    assert forall k | 0 <= k < i :: all[k] == before[k] == us[k];
    assert all[i] == us[i];
  }

  // ---- permutations ----

  lemma TwoCopies<T>(s: seq<T>, i: int, j: int)
    requires 0 <= i < j < |s| && s[i] == s[j]
    ensures multiset(s)[s[i]] >= 2
  {
    assert s == s[..j] + s[j..];
    assert s[i] in s[..j] && s[i] in s[j..];
  }

  lemma {:induction false} TwoPlaces<T>(s: seq<T>, x: T) returns (i: int, j: int)
    requires multiset(s)[x] >= 2
    ensures 0 <= i < j < |s| && s[i] == s[j] == x
  {
    assert s == [s[0]] + s[1..];
    if s[0] == x {
      assert multiset(s[1..])[x] >= 1;
      assert x in s[1..];
      i := 0;
      j :| 1 <= j < |s| && s[j] == x;
    } else {
      i, j := TwoPlaces(s[1..], x);
      i, j := i + 1, j + 1;
    }
  }

  // Validity does not depend on the order of the user list.
  lemma ValidityIgnoresOrder(a: State, b: State)
    requires multiset(a.users) == multiset(b.users)
    requires ValidState(a)
    ensures ValidState(b)
  {
    forall i | 0 <= i < |b.users| ensures ValidUser(b.users[i]) {
      assert b.users[i] in multiset(b.users);
    }
    forall i, j | 0 <= i < j < |b.users|
      ensures b.users[i].username != b.users[j].username
      ensures b.users[i].recordNumber != b.users[j].recordNumber
    {
      var u, v := b.users[i], b.users[j];
      assert u in multiset(a.users) && v in multiset(a.users);
      if u == v {
        TwoCopies(b.users, i, j);
        var k, l := TwoPlaces(a.users, u);
        assert false;
      }
      var k :| 0 <= k < |a.users| && a.users[k] == u;
      var l :| 0 <= l < |a.users| && a.users[l] == v;
      assert k != l;
    }
  }
}
