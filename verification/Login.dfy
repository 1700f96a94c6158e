// internal/auth/service.go: Login with the per-account lockout, and the per-address failure limiter.
// Times are integers; logins run one after another.
module Login {

  import opened Wrappers

  datatype Options = Options(maxFailures: int, lockout: int, ipMaxFailures: int, ipWindow: int, ipLockout: int)

  // applyDefaults, with the durations in seconds.
  function WithDefaults(o: Options): Options {
    Options(
      if o.maxFailures == 0 then 5 else o.maxFailures,
      if o.lockout == 0 then 15 * 60 else o.lockout,
      if o.ipMaxFailures == 0 then 20 else o.ipMaxFailures,
      if o.ipWindow == 0 then 15 * 60 else o.ipWindow,
      if o.ipLockout == 0 then 15 * 60 else o.ipLockout)
  }

  predicate Positive(o: Options) {
    o.maxFailures > 0 && o.lockout > 0 && o.ipMaxFailures > 0 && o.ipWindow > 0 && o.ipLockout > 0
  }

  const MAX_TRACKED_IPS := 8192

  // ---- the address limiter ----

  // blockedUntil is None until the address is first blocked.
  datatype IpEntry = IpEntry(failures: seq<int>, blockedUntil: Option<int>)

  type Entries = map<string, IpEntry>

  predicate After(until: Option<int>, now: int) {
    until.Some? && until.value > now
  }

  // The failures inside the sliding window.
  function Recent(failures: seq<int>, now: int, window: int): seq<int> {
    if failures == [] then [] else
      var f := failures[|failures| - 1];
      Recent(failures[..|failures| - 1], now, window) + if now - f <= window then [f] else []
  }

  predicate IpBlocked(entries: Entries, ip: string, now: int) {
    ip != "" && ip in entries && After(entries[ip].blockedUntil, now)
  }

  // Neither blocked nor holding a failure inside the window.
  predicate Expired(o: Options, e: IpEntry, now: int) {
    !After(e.blockedUntil, now) && (e.failures == [] || now - e.failures[|e.failures| - 1] > o.ipWindow)
  }

  function Pruned(o: Options, entries: Entries, now: int): Entries {
    if |entries| < MAX_TRACKED_IPS then entries
    else map ip | ip in entries && !Expired(o, entries[ip], now) :: entries[ip]
  }

  function EntryOf(entries: Entries, ip: string): IpEntry {
    if ip in entries then entries[ip] else IpEntry([], None)
  }

  function AddFailure(o: Options, e: IpEntry, now: int): IpEntry {
    var failures := Recent(e.failures, now, o.ipWindow) + [now];
    if |failures| >= o.ipMaxFailures then IpEntry([], Some(now + o.ipLockout)) else IpEntry(failures, e.blockedUntil)
  }

  // recordFailure, with or without the pruning that bounds the table.
  function FailureRecorded(o: Options, entries: Entries, ip: string, now: int, prune: bool): Entries {
    if ip == "" then entries else
      var kept := if prune then Pruned(o, entries, now) else entries;
      kept[ip := AddFailure(o, EntryOf(kept, ip), now)]
  }

  class IpLimiter {
    const opts: Options
    var entries: Entries

    constructor (opts: Options)
      ensures this.opts == opts && entries == map[]
    {
      this.opts := opts;
      entries := map[];
    }

    method Blocked(ip: string, now: int) returns (blocked: bool, left: int)
      ensures blocked == IpBlocked(entries, ip, now)
      ensures left == if blocked then entries[ip].blockedUntil.value - now else 0
    {
      if ip == "" || ip !in entries {
        return false, 0;
      }
      var until := entries[ip].blockedUntil;
      if After(until, now) {
        return true, until.value - now;
      }
      return false, 0;
    }

    method RecordFailure(ip: string, now: int)
      modifies this
      ensures entries == FailureRecorded(opts, old(entries), ip, now, true)
    {
      if ip == "" {
        return;
      }
      Prune(now);
      var e := EntryOf(entries, ip);
      var slots := new int[|e.failures|](i requires 0 <= i < |e.failures| => e.failures[i]);
      assert slots[..] == e.failures;
      var n := KeepRecent(slots, now, opts.ipWindow);
      var failures := slots[..n] + [now];
      if |failures| >= opts.ipMaxFailures {
        entries := entries[ip := IpEntry([], Some(now + opts.ipLockout))];
      } else {
        entries := entries[ip := IpEntry(failures, e.blockedUntil)];
      }
    }

    // The sliding window is filtered in the slots it occupies.
    static method KeepRecent(slots: array<int>, now: int, window: int) returns (n: nat)
      modifies slots
      ensures n <= slots.Length && slots[..n] == Recent(old(slots[..]), now, window)
    {
      n := 0;
      ghost var all := slots[..];
      for i := 0 to slots.Length
        invariant n <= i
        invariant forall k | i <= k < slots.Length :: slots[k] == all[k]
        invariant slots[..n] == Recent(all[..i], now, window)
      {
        assert all[..i + 1][..i] == all[..i];
        if now - slots[i] <= window {
          slots[n] := slots[i];
          n := n + 1;
        }
      }
      assert all[..slots.Length] == all;
    }

    method RecordSuccess(ip: string)
      modifies this
      ensures entries == old(entries) - {ip}
    {
      entries := entries - {ip};
    }

    method Prune(now: int)
      modifies this
      ensures entries == Pruned(opts, old(entries), now)
    {
      if |entries| < MAX_TRACKED_IPS {
        return;
      }
      ghost var all := entries;
      var todo := entries.Keys;
      while todo != {}
        invariant todo <= entries.Keys <= all.Keys
        invariant forall ip | ip in entries :: entries[ip] == all[ip]
        invariant forall ip | ip in all && ip !in todo :: ip in entries <==> !Expired(opts, all[ip], now)
        decreases |todo|
      {
        var ip := Pick(todo);
        if Expired(opts, entries[ip], now) {
          entries := entries - {ip};
        }
        todo := todo - {ip};
      }
    }
  }

  // ---- accounts ----

  datatype Account = Account(failedAttempts: int, lockedUntil: Option<int>)

  const UNLOCKED := Account(0, None)

  function FailedAccount(o: Options, a: Account, now: int): Account {
    var attempts := a.failedAttempts + 1;
    Account(attempts, if attempts >= o.maxFailures then Some(now + o.lockout) else None)
  }

  // ---- one login ----

  // user: the account that the typed name resolves to, as the lookup ignores case, or a name that none has.
  // good: the password matches. The rest are failures of the database: at the lookup, when clearing an
  // expired lock, when recording a failure, and after a success when resetting the counters and when
  // creating the session.
  datatype Attempt = Attempt(
    ip: string, user: string, at: int, good: bool,
    lookupFails: bool, clearFails: bool, recordFails: bool, resetFails: bool, sessionFails: bool)

  datatype Outcome = AddressBlocked | UnknownAccount | AccountLocked | BadPassword | StoreError | Success

  datatype State = State(entries: Entries, accounts: map<string, Account>)

  // The account as the password comparison sees it: an expired lock has been cleared.
  function Cleared(a: Account): Account {
    if a.lockedUntil.Some? then UNLOCKED else a
  }

  predicate Reaches(s: State, a: Attempt) {
    !IpBlocked(s.entries, a.ip, a.at) && !a.lookupFails && a.user in s.accounts
  }

  function OutcomeOf(s: State, a: Attempt): Outcome {
    if IpBlocked(s.entries, a.ip, a.at) then AddressBlocked
    else if a.lookupFails then StoreError
    else if a.user !in s.accounts then UnknownAccount
    else
      var account := s.accounts[a.user];
      if After(account.lockedUntil, a.at) then AccountLocked
      else if account.lockedUntil.Some? && a.clearFails then StoreError
      else if !a.good then BadPassword
      else if a.resetFails || a.sessionFails then StoreError
      else Success
  }

  // The password of an existing account is compared.
  predicate Compares(s: State, a: Attempt) {
    && Reaches(s, a)
    && !After(s.accounts[a.user].lockedUntil, a.at)
    && !(s.accounts[a.user].lockedUntil.Some? && a.clearFails)
  }

  function AccountAfter(o: Options, s: State, a: Attempt): Account
    requires Reaches(s, a)
  {
    var account := s.accounts[a.user];
    match OutcomeOf(s, a)
    case AccountLocked => if a.recordFails then account else FailedAccount(o, account, a.at)
    case BadPassword => if a.recordFails then Cleared(account) else FailedAccount(o, Cleared(account), a.at)
    case _ =>
      if !Compares(s, a) then account
      else if a.resetFails then Cleared(account)
      else UNLOCKED
  }

  function EntriesAfter(o: Options, s: State, a: Attempt, prune: bool): Entries {
    match OutcomeOf(s, a)
    case UnknownAccount => FailureRecorded(o, s.entries, a.ip, a.at, prune)
    case AccountLocked => FailureRecorded(o, s.entries, a.ip, a.at, prune)
    case BadPassword => FailureRecorded(o, s.entries, a.ip, a.at, prune)
    case AddressBlocked => s.entries
    case _ => if Compares(s, a) && a.good then s.entries - {a.ip} else s.entries
  }

  function LoggedIn(o: Options, s: State, a: Attempt, prune: bool): State {
    State(EntriesAfter(o, s, a, prune),
          if Reaches(s, a) then s.accounts[a.user := AccountAfter(o, s, a)] else s.accounts)
  }

  class Service {
    const opts: Options
    const ips: IpLimiter
    var accounts: map<string, Account>

    ghost predicate Valid()
      reads this
    {
      ips.opts == opts
    }

    constructor (opts: Options)
      ensures Valid() && fresh(ips) && this.opts == WithDefaults(opts) && View() == State(map[], map[])
    {
      this.opts := WithDefaults(opts);
      ips := new IpLimiter(WithDefaults(opts));
      accounts := map[];
    }

    function View(): State
      reads this, ips
    {
      State(ips.entries, accounts)
    }

    method Login(a: Attempt) returns (outcome: Outcome)
      requires Valid()
      modifies this, ips
      ensures Valid()
      ensures outcome == OutcomeOf(old(View()), a)
      ensures View() == LoggedIn(opts, old(View()), a, true)
    {
      hide FailureRecorded;
      var blocked, _ := ips.Blocked(a.ip, a.at);
      if blocked {
        return AddressBlocked;
      }
      if a.lookupFails {
        return StoreError;
      }
      if a.user !in accounts {
        ips.RecordFailure(a.ip, a.at);
        return UnknownAccount;
      }
      var account := accounts[a.user];
      assert accounts[a.user := account] == accounts;
      if account.lockedUntil.Some? {
        if account.lockedUntil.value > a.at {
          Fail(a, account);
          return AccountLocked;
        }
        if a.clearFails {
          return StoreError;
        }
        account := UNLOCKED;
        accounts := accounts[a.user := account];
      }
      if !a.good {
        Fail(a, account);
        return BadPassword;
      }
      ips.RecordSuccess(a.ip);
      if a.resetFails {
        return StoreError;
      }
      accounts := accounts[a.user := UNLOCKED];
      if a.sessionFails {
        return StoreError;
      }
      return Success;
    }

    method Fail(a: Attempt, account: Account)
      requires Valid()
      modifies this`accounts, ips
      ensures ips.entries == FailureRecorded(opts, old(ips.entries), a.ip, a.at, true)
      ensures accounts == if a.recordFails then old(accounts) else old(accounts)[a.user := FailedAccount(opts, account, a.at)]
    {
      ips.RecordFailure(a.ip, a.at);
      var attempts := account.failedAttempts + 1;
      var lockedUntil: Option<int> := None;
      if attempts >= opts.maxFailures {
        lockedUntil := Some(a.at + opts.lockout);
      }
      if !a.recordFails {
        accounts := accounts[a.user := Account(attempts, lockedUntil)];
      }
    }
  }
}
