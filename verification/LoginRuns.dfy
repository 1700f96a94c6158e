// Whole runs of internal/auth/service.go: logins, password resets and account creations in time order.
module LoginRuns {

  import opened Wrappers
  import opened Login

  // Reset stands for a password update or the creation of an account.
  datatype Event = Try(a: Attempt) | Reset(user: string, time: int)

  function At(e: Event): int {
    match e
    case Try(a) => a.at
    case Reset(_, time) => time
  }

  predicate InOrder(es: seq<Event>) {
    forall i, j | 0 <= i < j < |es| :: At(es[i]) <= At(es[j])
  }

  function Step(o: Options, s: State, e: Event, prune: bool): State {
    match e
    case Try(a) => LoggedIn(o, s, a, prune)
    case Reset(user, _) => s.(accounts := s.accounts[user := UNLOCKED])
  }

  function Run(o: Options, es: seq<Event>, prune: bool): State {
    if es == [] then State(map[], map[]) else
      Step(o, Run(o, es[..|es| - 1], prune), es[|es| - 1], prune)
  }

  function LastTime(es: seq<Event>): int {
    if es == [] then 0 else At(es[|es| - 1])
  }

  // ---- pruning is not observable ----

  // The block still in force, if any.
  function InForce(e: IpEntry, now: int): Option<int> {
    if After(e.blockedUntil, now) then e.blockedUntil else None
  }

  predicate Same(a: IpEntry, b: IpEntry, now: int) {
    a.failures == b.failures && InForce(a, now) == InForce(b, now)
  }

  predicate TimesInOrder(failures: seq<int>, now: int) {
    && (forall i, j | 0 <= i < j < |failures| :: failures[i] <= failures[j])
    && (forall i | 0 <= i < |failures| :: failures[i] <= now)
  }

  ghost predicate Simulates(o: Options, kept: Entries, all: Entries, now: int) {
    && (forall ip | ip in all :: TimesInOrder(all[ip].failures, now))
    && (forall ip | ip in kept :: ip in all && Same(kept[ip], all[ip], now))
    && (forall ip | ip in all && ip !in kept :: Expired(o, all[ip], now))
  }

  lemma {:induction false} RecentOf(failures: seq<int>, now: int, window: int)
    requires TimesInOrder(failures, now)
    ensures TimesInOrder(Recent(failures, now, window), now)
    ensures failures != [] && now - failures[|failures| - 1] > window ==> Recent(failures, now, window) == []
    ensures forall f | f in Recent(failures, now, window) :: f in failures
    decreases |failures|
  {
    if failures != [] {
      var before := failures[..|failures| - 1];
      RecentOf(before, now, window);
      if before != [] {
        assert before[|before| - 1] <= failures[|failures| - 1];
      }
      forall i | 0 <= i < |Recent(before, now, window)|
        ensures Recent(before, now, window)[i] <= failures[|failures| - 1]
      {
        assert Recent(before, now, window)[i] in before;
      }
    }
  }

  // Later on, what was in step still is.
  lemma TimePasses(o: Options, kept: Entries, all: Entries, was: int, now: int)
    requires Positive(o) && Simulates(o, kept, all, was) && was <= now
    ensures Simulates(o, kept, all, now)
  {
    forall ip | ip in kept ensures ip in all && Same(kept[ip], all[ip], now) {
      assert Same(kept[ip], all[ip], was);
    }
  }

  lemma PruneSimulates(o: Options, kept: Entries, all: Entries, now: int)
    requires Simulates(o, kept, all, now)
    ensures Simulates(o, Pruned(o, kept, now), all, now)
  {
    forall ip | ip in all && ip !in Pruned(o, kept, now) ensures Expired(o, all[ip], now) {
      if ip in kept {
        assert Same(kept[ip], all[ip], now);
      }
    }
  }

  // A fresh entry is as good as an expired one.
  lemma AddSame(o: Options, a: IpEntry, b: IpEntry, now: int)
    requires Positive(o) && TimesInOrder(b.failures, now)
    requires Same(a, b, now) || (a == IpEntry([], None) && Expired(o, b, now))
    ensures Same(AddFailure(o, a, now), AddFailure(o, b, now), now)
  {
    hide Recent, TimesInOrder;
    RecentOf(b.failures, now, o.ipWindow);
    RecentOfNone(now, o.ipWindow);
  }

  lemma FailureSimulates(o: Options, kept: Entries, all: Entries, ip: string, now: int)
    requires Positive(o) && Simulates(o, kept, all, now)
    ensures Simulates(o, FailureRecorded(o, kept, ip, now, true), FailureRecorded(o, all, ip, now, false), now)
  {
    hide Pruned, Recent, Same, Expired;
    if ip != "" {
      var trimmed := Pruned(o, kept, now);
      PruneSimulates(o, kept, all, now);
      var a, b := EntryOf(trimmed, ip), EntryOf(all, ip);
      RecentOf(b.failures, now, o.ipWindow);
      assert ip in trimmed ==> Same(trimmed[ip], all[ip], now);
      SameAsItself(b, now);
      AddSame(o, a, b, now);
    }
  }

  lemma SameAsItself(e: IpEntry, now: int)
    ensures Same(e, e, now)
  {
  }

  lemma RecentOfNone(now: int, window: int)
    ensures Recent([], now, window) == []
  {
  }

  lemma SameBlocked(o: Options, kept: Entries, all: Entries, ip: string, now: int)
    requires Simulates(o, kept, all, now)
    ensures IpBlocked(kept, ip, now) == IpBlocked(all, ip, now)
  {
    if ip in kept {
      assert Same(kept[ip], all[ip], now);
    } else if ip in all {
      assert Expired(o, all[ip], now);
    }
  }

  lemma SuccessSimulates(o: Options, kept: Entries, all: Entries, ip: string, now: int)
    requires Simulates(o, kept, all, now)
    ensures Simulates(o, kept - {ip}, all - {ip}, now)
  {
  }

  lemma LoginSimulates(o: Options, s: State, t: State, a: Attempt)
    requires Positive(o) && Simulates(o, s.entries, t.entries, a.at) && s.accounts == t.accounts
    ensures OutcomeOf(s, a) == OutcomeOf(t, a)
    ensures var s', t' := LoggedIn(o, s, a, true), LoggedIn(o, t, a, false);
      Simulates(o, s'.entries, t'.entries, a.at) && s'.accounts == t'.accounts
  {
    hide Simulates, FailureRecorded, IpBlocked, FailedAccount;
    SameBlocked(o, s.entries, t.entries, a.ip, a.at);
    FailureSimulates(o, s.entries, t.entries, a.ip, a.at);
    SuccessSimulates(o, s.entries, t.entries, a.ip, a.at);
  }

  lemma {:induction false} RunsSimulate(o: Options, es: seq<Event>)
    requires Positive(o) && InOrder(es)
    ensures var s, t := Run(o, es, true), Run(o, es, false);
      Simulates(o, s.entries, t.entries, LastTime(es)) && s.accounts == t.accounts
    decreases |es|
  {
    hide LoggedIn, Simulates;
    if es == [] {
      EmptySimulates(o, 0);
    } else {
      var before, e := es[..|es| - 1], es[|es| - 1];
      RunsSimulate(o, before);
      if before == [] {
        EmptySimulates(o, At(e));
      } else {
        TimePasses(o, Run(o, before, true).entries, Run(o, before, false).entries, LastTime(before), At(e));
      }
      if e.Try? {
        LoginSimulates(o, Run(o, before, true), Run(o, before, false), e.a);
      }
    }
  }

  lemma EmptySimulates(o: Options, now: int)
    ensures Simulates(o, map[], map[], now)
  {
  }

  // A limiter that never forgets an address gives every login the same outcome and leaves the accounts the
  // same.
  lemma PruningIsUnobservable(o: Options, es: seq<Event>, a: Attempt)
    requires Positive(o) && InOrder(es + [Try(a)])
    ensures OutcomeOf(Run(o, es, true), a) == OutcomeOf(Run(o, es, false), a)
    ensures Run(o, es, true).accounts == Run(o, es, false).accounts
  {
    hide LoggedIn, Simulates, OutcomeOf;
    var all := es + [Try(a)];
    assert InOrder(es) by {
      forall i, j | 0 <= i < j < |es| ensures At(es[i]) <= At(es[j]) {
        assert all[i] == es[i] && all[j] == es[j];
      }
    }
    RunsSimulate(o, es);
    if es == [] {
      EmptySimulates(o, a.at);
    } else {
      assert all[|es| - 1] == es[|es| - 1] && all[|es|] == Try(a);
      assert At(all[|es| - 1]) <= At(all[|es|]);
      TimePasses(o, Run(o, es, true).entries, Run(o, es, false).entries, LastTime(es), a.at);
    }
    LoginSimulates(o, Run(o, es, true), Run(o, es, false), a);
  }

  // ---- the window bound of the address limiter ----

  predicate IsFailure(outcome: Outcome) {
    outcome.UnknownAccount? || outcome.AccountLocked? || outcome.BadPassword?
  }

  // Event i is a failed login from the address, as counted by the limiter.
  predicate FailsFrom(o: Options, es: seq<Event>, ip: string, i: nat, prune: bool)
    requires i < |es|
  {
    es[i].Try? && es[i].a.ip == ip && IsFailure(OutcomeOf(Run(o, es[..i], prune), es[i].a))
  }

  function FailureCount(o: Options, es: seq<Event>, ip: string, i: nat, j: nat, prune: bool): nat
    requires i <= j <= |es|
    decreases j
  {
    if i == j then 0 else
      FailureCount(o, es, ip, i, j - 1, prune) + if FailsFrom(o, es, ip, j - 1, prune) then 1 else 0
  }

  predicate SucceedsFrom(o: Options, es: seq<Event>, ip: string, i: nat)
    requires i < |es|
  {
    es[i].Try? && es[i].a.ip == ip && es[i].a.good && Compares(Run(o, es[..i], true), es[i].a)
  }

  predicate NoSuccessFrom(o: Options, es: seq<Event>, ip: string, i: nat, j: nat)
    requires i <= j <= |es|
  {
    forall k | i <= k < j :: !SucceedsFrom(o, es, ip, k)
  }

  function CountSince(failures: seq<int>, start: int): nat {
    if failures == [] then 0 else
      CountSince(failures[..|failures| - 1], start) + if failures[|failures| - 1] >= start then 1 else 0
  }

  lemma {:induction false} CountSinceBound(failures: seq<int>, start: int)
    ensures CountSince(failures, start) <= |failures|
    decreases |failures|
  {
    if failures != [] {
      CountSinceBound(failures[..|failures| - 1], start);
    }
  }

  // Nothing since the start of a window no longer than the limiter's is filtered out.
  lemma {:induction false} RecentKeepsSince(failures: seq<int>, now: int, window: int, start: int)
    requires now - start <= window
    ensures CountSince(Recent(failures, now, window), start) == CountSince(failures, start)
    decreases |failures|
  {
    if failures != [] {
      var before, f := failures[..|failures| - 1], failures[|failures| - 1];
      RecentKeepsSince(before, now, window, start);
      if now - f <= window {
        CountSinceStep(Recent(before, now, window), f, start);
      } else {
        assert Recent(before, now, window) + [] == Recent(before, now, window);
      }
    }
  }

  lemma CountSinceStep(failures: seq<int>, f: int, start: int)
    ensures CountSince(failures + [f], start) == CountSince(failures, start) + if f >= start then 1 else 0
  {
    assert (failures + [f])[..|failures|] == failures;
  }

  function Least(a: int, b: int): int {
    if a < b then a else b
  }

  // Since the start of the window the address has failed n times: either it was blocked for the rest of
  // the window, or all of them are still in its list, which is shorter than the limit.
  ghost predicate Charged(o: Options, entries: Entries, ip: string, n: nat, start: int) {
    && n <= o.ipMaxFailures
    && (n > 0 ==>
          && ip in entries
          && (After(entries[ip].blockedUntil, start + o.ipLockout - 1) || CountSince(entries[ip].failures, start) >= n))
  }

  ghost predicate ShortLists(o: Options, entries: Entries) {
    forall ip | ip in entries :: |entries[ip].failures| < o.ipMaxFailures
  }

  lemma FailureCharges(o: Options, entries: Entries, ip: string, n: nat, start: int, now: int)
    requires Positive(o) && ip != "" && ShortLists(o, entries)
    requires Charged(o, entries, ip, n, start) && !IpBlocked(entries, ip, now)
    requires start <= now < start + Least(o.ipWindow, o.ipLockout)
    ensures Charged(o, FailureRecorded(o, entries, ip, now, false), ip, n + 1, start)
    ensures ShortLists(o, FailureRecorded(o, entries, ip, now, false))
  {
    hide Recent, CountSince;
    var e := EntryOf(entries, ip);
    var recent := Recent(e.failures, now, o.ipWindow);
    RecentKeepsSince(e.failures, now, o.ipWindow, start);
    CountSinceStep(recent, now, start);
    CountSinceBound(e.failures, start);
    CountSinceBound(recent, start);
  }

  lemma {:induction false} ListsStayShort(o: Options, es: seq<Event>)
    requires Positive(o)
    ensures ShortLists(o, Run(o, es, false).entries)
    decreases |es|
  {
    hide Recent, Compares, Reaches, OutcomeOf, AccountAfter;
    if es != [] {
      ListsStayShort(o, es[..|es| - 1]);
    }
  }

  lemma StepCharges(o: Options, s: State, a: Attempt, ip: string, n: nat, start: int)
    requires Positive(o) && ip != "" && ShortLists(o, s.entries) && Charged(o, s.entries, ip, n, start)
    requires start <= a.at < start + Least(o.ipWindow, o.ipLockout)
    requires !(a.ip == ip && a.good && Compares(s, a))
    ensures Charged(o, LoggedIn(o, s, a, false).entries, ip,
                    n + if a.ip == ip && IsFailure(OutcomeOf(s, a)) then 1 else 0, start)
  {
    hide AddFailure, CountSince, ShortLists;
    if a.ip == ip && IsFailure(OutcomeOf(s, a)) {
      FailureCharges(o, s.entries, ip, n, start, a.at);
    }
  }

  lemma {:induction false} ChargesHold(o: Options, es: seq<Event>, ip: string, i: nat, j: nat)
    requires Positive(o) && InOrder(es) && ip != "" && i < j <= |es|
    requires At(es[j - 1]) - At(es[i]) < Least(o.ipWindow, o.ipLockout)
    requires NoSuccessFrom(o, es, ip, i, j)
    ensures Charged(o, Run(o, es[..j], false).entries, ip, FailureCount(o, es, ip, i, j, false), At(es[i]))
    decreases j
  {
    hide LoggedIn, Charged, ShortLists, OutcomeOf, IsFailure, Compares;
    var before, e := es[..j - 1], es[j - 1];
    assert es[..j][..j - 1] == before;
    var n := FailureCount(o, es, ip, i, j - 1, false);
    if j - 1 > i {
      assert At(es[j - 2]) <= At(es[j - 1]);
      ChargesHold(o, es, ip, i, j - 1);
    } else {
      NothingCharged(o, Run(o, before, false).entries, ip, At(es[i]));
    }
    if e.Try? {
      ListsStayShort(o, before);
      SameComparison(o, es, j - 1);
      assert !SucceedsFrom(o, es, ip, j - 1);
      StepCharges(o, Run(o, before, false), e.a, ip, n, At(es[i]));
    }
  }

  lemma NothingCharged(o: Options, entries: Entries, ip: string, start: int)
    requires Positive(o)
    ensures Charged(o, entries, ip, 0, start)
  {
  }

  lemma SameComparison(o: Options, es: seq<Event>, i: nat)
    requires Positive(o) && InOrder(es) && i < |es| && es[i].Try?
    ensures OutcomeOf(Run(o, es[..i], true), es[i].a) == OutcomeOf(Run(o, es[..i], false), es[i].a)
    ensures Compares(Run(o, es[..i], true), es[i].a) == Compares(Run(o, es[..i], false), es[i].a)
  {
    hide Run;
    assert es[..i] + [Try(es[i].a)] == es[..i + 1];
    PruningIsUnobservable(o, es[..i], es[i].a);
  }

  lemma {:induction false} CountsAgree(o: Options, es: seq<Event>, ip: string, i: nat, j: nat)
    requires Positive(o) && InOrder(es) && i <= j <= |es|
    ensures FailureCount(o, es, ip, i, j, true) == FailureCount(o, es, ip, i, j, false)
    decreases j
  {
    hide Run, OutcomeOf;
    if i < j {
      CountsAgree(o, es, ip, i, j - 1);
      if es[j - 1].Try? {
        SameComparison(o, es, j - 1);
      }
    }
  }

  // In every half-open window of the shorter of the sliding window and the block, an address without a
  // success in it records at most the configured number of failures.
  lemma AddressWindowBound(o: Options, es: seq<Event>, ip: string, i: nat, j: nat)
    requires Positive(o) && InOrder(es) && ip != "" && i < j <= |es|
    requires At(es[j - 1]) - At(es[i]) < Least(o.ipWindow, o.ipLockout)
    requires NoSuccessFrom(o, es, ip, i, j)
    ensures FailureCount(o, es, ip, i, j, true) <= o.ipMaxFailures
  {
    hide Run, FailureCount, NoSuccessFrom, InOrder;
    ChargesHold(o, es, ip, i, j);
    CountsAgree(o, es, ip, i, j);
  }

  // ---- the account lockout ----

  // Unlocked accounts are below the limit; a lock was set no later than now.
  predicate GoodAccount(o: Options, a: Account, now: int) {
    match a.lockedUntil
    case None => 0 <= a.failedAttempts < o.maxFailures
    case Some(until) => a.failedAttempts >= o.maxFailures && until <= now + o.lockout
  }

  ghost predicate GoodAccounts(o: Options, accounts: map<string, Account>, now: int) {
    forall user | user in accounts :: GoodAccount(o, accounts[user], now)
  }

  lemma {:induction false} AccountsStayGood(o: Options, es: seq<Event>, now: int)
    requires Positive(o) && InOrder(es) && (es != [] ==> LastTime(es) <= now)
    ensures GoodAccounts(o, Run(o, es, true).accounts, now)
    decreases |es|
  {
    hide EntriesAfter, IpBlocked;
    if es != [] {
      AccountsStayGood(o, es[..|es| - 1], At(es[|es| - 1]));
    }
  }

  // Event i compares the password of the account, finds it wrong and records that.
  predicate Misses(o: Options, es: seq<Event>, user: string, i: nat)
    requires i < |es|
  {
    es[i].Try? && es[i].a.user == user && !es[i].a.recordFails
    && OutcomeOf(Run(o, es[..i], true), es[i].a).BadPassword?
  }

  function MissCount(o: Options, es: seq<Event>, user: string, i: nat, j: nat): nat
    requires i <= j <= |es|
    decreases j
  {
    if i == j then 0 else MissCount(o, es, user, i, j - 1) + if Misses(o, es, user, j - 1) then 1 else 0
  }

  // No success or reset of the account from i up to j.
  predicate Undisturbed(o: Options, es: seq<Event>, user: string, i: nat, j: nat)
    requires i <= j <= |es|
  {
    forall k | i <= k < j ::
      match es[k]
      case Reset(u, _) => u != user
      case Try(a) => !(a.user == user && a.good && Compares(Run(o, es[..k], true), a))
  }

  // Since the start of the window the account has missed n times: either it is locked for the rest of the
  // window, or it is unlocked and has counted them all.
  ghost predicate Tallied(o: Options, accounts: map<string, Account>, user: string, n: nat, start: int) {
    && n <= o.maxFailures
    && (n > 0 ==>
          && user in accounts
          && (After(accounts[user].lockedUntil, start + o.lockout - 1)
              || (accounts[user].lockedUntil.None? && accounts[user].failedAttempts >= n)))
  }

  lemma StepTallies(o: Options, s: State, a: Attempt, user: string, n: nat, start: int)
    requires Positive(o) && GoodAccounts(o, s.accounts, a.at) && Tallied(o, s.accounts, user, n, start)
    requires start <= a.at < start + o.lockout
    requires !(a.user == user && a.good && Compares(s, a))
    ensures Tallied(o, LoggedIn(o, s, a, true).accounts, user,
                    n + if a.user == user && !a.recordFails && OutcomeOf(s, a).BadPassword? then 1 else 0, start)
  {
    hide EntriesAfter, IpBlocked;
    if user in s.accounts {
      assert GoodAccount(o, s.accounts[user], a.at);
    }
  }

  lemma {:induction false} TalliesHold(o: Options, es: seq<Event>, user: string, i: nat, j: nat)
    requires Positive(o) && InOrder(es) && i < j <= |es|
    requires At(es[j - 1]) - At(es[i]) < o.lockout && Undisturbed(o, es, user, i, j)
    ensures Tallied(o, Run(o, es[..j], true).accounts, user, MissCount(o, es, user, i, j), At(es[i]))
    decreases j
  {
    hide LoggedIn, GoodAccounts, OutcomeOf, Compares;
    var before, e := es[..j - 1], es[j - 1];
    assert es[..j][..j - 1] == before;
    if j - 1 > i {
      assert At(es[j - 2]) <= At(es[j - 1]);
      TalliesHold(o, es, user, i, j - 1);
    }
    if e.Try? {
      if before != [] {
        assert At(es[j - 2]) <= At(es[j - 1]);
      }
      AccountsStayGood(o, before, At(e));
      StepTallies(o, Run(o, before, true), e.a, user, MissCount(o, es, user, i, j - 1), At(es[i]));
    }
  }

  // In every half-open window of the lockout's length without a success or reset, at most the configured
  // number of wrong passwords is compared and recorded for an account, from however many addresses.
  lemma LockoutBound(o: Options, es: seq<Event>, user: string, i: nat, j: nat)
    requires Positive(o) && InOrder(es) && i < j <= |es|
    requires At(es[j - 1]) - At(es[i]) < o.lockout && Undisturbed(o, es, user, i, j)
    ensures MissCount(o, es, user, i, j) <= o.maxFailures
  {
    hide Run, MissCount, Undisturbed, InOrder;
    TalliesHold(o, es, user, i, j);
  }

  // ---- a lock holds ----

  predicate LockedUntil(s: State, user: string, until: int) {
    user in s.accounts && After(s.accounts[user].lockedUntil, until - 1)
  }

  lemma StepKeepsLock(o: Options, s: State, a: Attempt, user: string, until: int)
    requires Positive(o) && GoodAccounts(o, s.accounts, a.at)
    requires LockedUntil(s, user, until) && a.at < until
    ensures a.user == user ==> !Compares(s, a)
    ensures LockedUntil(LoggedIn(o, s, a, true), user, until)
  {
    hide EntriesAfter, IpBlocked;
    assert GoodAccount(o, s.accounts[user], a.at);
  }

  // Once an account is locked until a moment, no password is compared for it before that moment, whatever is
  // attempted meanwhile: attempts during the lock only extend it.
  lemma {:induction false} LockHolds(o: Options, es: seq<Event>, user: string, until: int, i: nat, j: nat)
    requires Positive(o) && InOrder(es) && i <= j < |es| && At(es[j]) < until
    requires LockedUntil(Run(o, es[..i], true), user, until)
    requires forall k | i <= k < j :: es[k].Reset? ==> es[k].user != user
    ensures LockedUntil(Run(o, es[..j], true), user, until)
    ensures es[j].Try? && es[j].a.user == user ==> !Compares(Run(o, es[..j], true), es[j].a)
    decreases j
  {
    hide LoggedIn, GoodAccounts, Compares, LockedUntil;
    if j > i {
      var before, e := es[..j - 1], es[j - 1];
      assert es[..j][..j - 1] == before;
      assert At(es[j - 1]) <= At(es[j]);
      LockHolds(o, es, user, until, i, j - 1);
      if e.Try? {
        GoodBefore(o, es, j - 1);
        StepKeepsLock(o, Run(o, before, true), e.a, user, until);
      } else {
        ResetKeepsLock(o, Run(o, before, true), e, user, until);
      }
    }
    if es[j].Try? {
      GoodBefore(o, es, j);
      StepKeepsLock(o, Run(o, es[..j], true), es[j].a, user, until);
    }
  }

  lemma GoodBefore(o: Options, es: seq<Event>, i: nat)
    requires Positive(o) && InOrder(es) && i < |es|
    ensures GoodAccounts(o, Run(o, es[..i], true).accounts, At(es[i]))
  {
    hide Run;
    if i > 0 {
      assert At(es[i - 1]) <= At(es[i]);
    }
    AccountsStayGood(o, es[..i], At(es[i]));
  }

  lemma ResetKeepsLock(o: Options, s: State, e: Event, user: string, until: int)
    requires e.Reset? && e.user != user && LockedUntil(s, user, until)
    ensures LockedUntil(Step(o, s, e, true), user, until)
  {
  }
}
