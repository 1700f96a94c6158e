// The exact outcome of a login in internal/auth/service.go, read off the history of events alone: what was
// tried, what was answered and when.
module LoginHistory {

  import opened Wrappers
  import opened Login
  import opened LoginRuns

  // What the caller of event i was told.
  function Told(o: Options, es: seq<Event>, i: nat): Outcome
    requires i < |es| && es[i].Try?
  {
    OutcomeOf(Run(o, es[..i], true), es[i].a)
  }

  // ---- the account ----

  // The failures recorded in a row for an account, and the time of the latest.
  datatype Streak = Streak(count: nat, last: int)

  const NO_FAILURES := Streak(0, 0)

  // The limit is reached: the account is locked from the latest failure on, for the lockout.
  predicate AtLimit(o: Options, streak: Streak) {
    streak.count >= o.maxFailures
  }

  // Nothing but a lock that has run out is forgiven when a password is compared.
  function Forgiven(o: Options, streak: Streak): Streak {
    if AtLimit(o, streak) then NO_FAILURES else streak
  }

  // The database failed only after a right password: at the reset of the counters or at the session.
  predicate FailedAfterMatch(o: Options, streak: Streak, a: Attempt) {
    a.good && !a.lookupFails && !(a.clearFails && AtLimit(o, streak))
  }

  function StreakAfter(o: Options, streak: Streak, a: Attempt, told: Outcome): Streak {
    match told
    case AccountLocked => if a.recordFails then streak else Streak(streak.count + 1, a.at)
    case BadPassword => if a.recordFails then Forgiven(o, streak) else Streak(Forgiven(o, streak).count + 1, a.at)
    case Success => NO_FAILURES
    case StoreError =>
      if !FailedAfterMatch(o, streak, a) then streak
      else if a.resetFails then Forgiven(o, streak)
      else NO_FAILURES
    case _ => streak
  }

  // The failures of an account since its last reset, success or lock that ran out.
  function StreakOf(o: Options, es: seq<Event>, user: string): Streak {
    if es == [] then NO_FAILURES else
      var streak := StreakOf(o, es[..|es| - 1], user);
      match es[|es| - 1]
      case Reset(u, _) => if u == user then NO_FAILURES else streak
      case Try(a) => if a.user == user then StreakAfter(o, streak, a, Told(o, es, |es| - 1)) else streak
  }

  predicate AccountIsLocked(o: Options, es: seq<Event>, user: string, now: int) {
    AtLimit(o, StreakOf(o, es, user)) && now < StreakOf(o, es, user).last + o.lockout
  }

  // A reset stands for the creation of the account, too.
  predicate Exists(es: seq<Event>, user: string) {
    exists i | 0 <= i < |es| :: es[i].Reset? && es[i].user == user
  }

  // ---- the address ----

  // The times of the failures not yet acted on, and that of the failure that last filled a window.
  datatype Tally = Tally(failures: seq<int>, filled: Option<int>)

  const NO_TALLY := Tally([], None)

  function TallyAfter(o: Options, tally: Tally, a: Attempt, told: Outcome, matched: bool): Tally {
    if IsFailure(told) then
      if CountSince(tally.failures, a.at - o.ipWindow) + 1 >= o.ipMaxFailures then Tally([], Some(a.at))
      else tally.(failures := tally.failures + [a.at])
    else if matched then NO_TALLY
    else tally
  }

  predicate Matched(o: Options, es: seq<Event>, i: nat)
    requires i < |es| && es[i].Try?
  {
    var a := es[i].a;
    Told(o, es, i).Success? || (Told(o, es, i).StoreError? && FailedAfterMatch(o, StreakOf(o, es[..i], a.user), a))
  }

  // The failed logins of an address since its last success, and when they last filled a window.
  function TallyOf(o: Options, es: seq<Event>, ip: string): Tally {
    if es == [] then NO_TALLY else
      var n := |es| - 1;
      var tally := TallyOf(o, es[..n], ip);
      if es[n].Try? && es[n].a.ip == ip then TallyAfter(o, tally, es[n].a, Told(o, es, n), Matched(o, es, n)) else tally
  }

  predicate AddressIsBlocked(o: Options, es: seq<Event>, ip: string, now: int) {
    ip != "" && TallyOf(o, es, ip).filled.Some? && now < TallyOf(o, es, ip).filled.value + o.ipLockout
  }

  // ---- the stored rows agree with the history ----

  function RowFor(o: Options, streak: Streak): Account {
    Account(streak.count, if AtLimit(o, streak) then Some(streak.last + o.lockout) else None)
  }

  ghost predicate AccountMatches(o: Options, accounts: map<string, Account>, es: seq<Event>, user: string) {
    && (user in accounts <==> Exists(es, user))
    && (user in accounts ==> accounts[user] == RowFor(o, StreakOf(o, es, user)))
    && (user !in accounts ==> StreakOf(o, es, user) == NO_FAILURES)
  }

  lemma ExistsStep(es: seq<Event>, e: Event, user: string)
    ensures Exists(es + [e], user) <==> Exists(es, user) || (e.Reset? && e.user == user)
  {
    var all := es + [e];
    if i :| 0 <= i < |es| && es[i].Reset? && es[i].user == user {
      assert all[i].Reset? && all[i].user == user;
    }
    if e.Reset? && e.user == user {
      assert all[|es|] == e;
    }
  }

  lemma RowStep(o: Options, s: State, a: Attempt, streak: Streak)
    requires Positive(o) && (a.user in s.accounts ==> s.accounts[a.user] == RowFor(o, streak))
    requires a.user !in s.accounts ==> streak == NO_FAILURES
    ensures var after, told := LoggedIn(o, s, a, true).accounts, OutcomeOf(s, a);
      && after.Keys == s.accounts.Keys
      && (a.user in s.accounts ==> after[a.user] == RowFor(o, StreakAfter(o, streak, a, told)))
      && (a.user !in s.accounts ==> StreakAfter(o, streak, a, told) == NO_FAILURES)
  {
    hide EntriesAfter, IpBlocked;
  }

  lemma OtherRows(o: Options, s: State, a: Attempt, user: string)
    requires a.user != user
    ensures var after := LoggedIn(o, s, a, true).accounts;
      (user in after <==> user in s.accounts) && (user in after ==> after[user] == s.accounts[user])
  {
    hide EntriesAfter, AccountAfter;
  }

  lemma {:induction false} AccountsMatch(o: Options, es: seq<Event>, user: string)
    requires Positive(o)
    ensures AccountMatches(o, Run(o, es, true).accounts, es, user)
    decreases |es|
  {
    hide LoggedIn, StreakAfter, OutcomeOf, RowFor, Exists;
    if es == [] {
      NothingYet(o, user);
    } else {
      var before, e := es[..|es| - 1], es[|es| - 1];
      AccountsMatch(o, before, user);
      ExistsStep(before, e, user);
      assert before + [e] == es;
      match e
      case Reset(u, _) => ResetRow(o);
      case Try(a) =>
        if a.user == user {
          RowStep(o, Run(o, before, true), a, StreakOf(o, before, user));
        } else {
          OtherRows(o, Run(o, before, true), a, user);
        }
    }
  }

  lemma NothingYet(o: Options, user: string)
    ensures !Exists([], user)
  {
  }

  lemma ResetRow(o: Options)
    requires Positive(o)
    ensures RowFor(o, NO_FAILURES) == UNLOCKED
  {
  }

  // ---- the limiter's entries agree with the history ----

  // From now on the two lists leave the same failures in the window.
  ghost predicate SameWindow(a: seq<int>, b: seq<int>, now: int, window: int) {
    forall t | t >= now :: Recent(a, t, window) == Recent(b, t, window)
  }

  lemma {:induction false} RecentTwice(failures: seq<int>, now: int, later: int, window: int)
    requires now <= later
    ensures Recent(Recent(failures, now, window), later, window) == Recent(failures, later, window)
    decreases |failures|
  {
    if failures != [] {
      var before, f := failures[..|failures| - 1], failures[|failures| - 1];
      RecentTwice(before, now, later, window);
      if now - f <= window {
        RecentStep(Recent(before, now, window), f, later, window);
      } else {
        assert Recent(before, now, window) + [] == Recent(before, now, window);
      }
    }
  }

  lemma RecentStep(failures: seq<int>, f: int, now: int, window: int)
    ensures Recent(failures + [f], now, window) == Recent(failures, now, window) + if now - f <= window then [f] else []
  {
    assert (failures + [f])[..|failures|] == failures;
  }

  lemma {:induction false} RecentCount(failures: seq<int>, now: int, window: int)
    ensures |Recent(failures, now, window)| == CountSince(failures, now - window)
    decreases |failures|
  {
    if failures != [] {
      RecentCount(failures[..|failures| - 1], now, window);
    }
  }

  ghost predicate EntryMatches(o: Options, e: IpEntry, tally: Tally, now: int) {
    && e.blockedUntil == (if tally.filled.Some? then Some(tally.filled.value + o.ipLockout) else None)
    && SameWindow(e.failures, tally.failures, now, o.ipWindow)
  }

  lemma FailureMatches(o: Options, e: IpEntry, tally: Tally, was: int, a: Attempt, told: Outcome)
    requires EntryMatches(o, e, tally, was) && was <= a.at && IsFailure(told)
    ensures EntryMatches(o, AddFailure(o, e, a.at), TallyAfter(o, tally, a, told, false), a.at)
  {
    hide Recent, CountSince;
    var kept := Recent(e.failures, a.at, o.ipWindow);
    assert kept == Recent(tally.failures, a.at, o.ipWindow);
    RecentCount(tally.failures, a.at, o.ipWindow);
    var after := AddFailure(o, e, a.at);
    if |kept| + 1 < o.ipMaxFailures {
      forall t | t >= a.at
        ensures Recent(kept + [a.at], t, o.ipWindow) == Recent(tally.failures + [a.at], t, o.ipWindow)
      {
        RecentStep(kept, a.at, t, o.ipWindow);
        RecentStep(tally.failures, a.at, t, o.ipWindow);
        RecentTwice(e.failures, a.at, t, o.ipWindow);
      }
    }
  }

  lemma NoFailuresMatch(o: Options, now: int)
    ensures EntryMatches(o, IpEntry([], None), NO_TALLY, now)
  {
  }

  lemma Waits(o: Options, e: IpEntry, tally: Tally, was: int, now: int)
    requires EntryMatches(o, e, tally, was) && was <= now
    ensures EntryMatches(o, e, tally, now)
  {
  }

  // Whether the password matched is what the state says.
  lemma MatchedIs(o: Options, s: State, a: Attempt, streak: Streak)
    requires Positive(o) && (a.user in s.accounts ==> s.accounts[a.user] == RowFor(o, streak))
    requires a.user !in s.accounts ==> streak == NO_FAILURES
    ensures OutcomeOf(s, a).Success? || (OutcomeOf(s, a).StoreError? && FailedAfterMatch(o, streak, a))
            <==> Compares(s, a) && a.good
    ensures IsFailure(OutcomeOf(s, a)) || OutcomeOf(s, a).AddressBlocked? ==> !(Compares(s, a) && a.good)
  {
    hide IpBlocked;
  }

  lemma EntryStep(o: Options, s: State, a: Attempt, tally: Tally, was: int, matched: bool)
    requires Positive(o) && a.ip != "" && was <= a.at && EntryMatches(o, EntryOf(s.entries, a.ip), tally, was)
    requires matched <==> Compares(s, a) && a.good
    requires IsFailure(OutcomeOf(s, a)) || OutcomeOf(s, a).AddressBlocked? ==> !matched
    ensures EntryMatches(o, EntryOf(LoggedIn(o, s, a, false).entries, a.ip),
                         TallyAfter(o, tally, a, OutcomeOf(s, a), matched), a.at)
  {
    hide EntryMatches, AddFailure, AccountAfter, Compares, IpBlocked;
    if IsFailure(OutcomeOf(s, a)) {
      FailureMatches(o, EntryOf(s.entries, a.ip), tally, was, a, OutcomeOf(s, a));
    } else {
      Waits(o, EntryOf(s.entries, a.ip), tally, was, a.at);
      NoFailuresMatch(o, a.at);
    }
  }

  lemma OtherEntries(o: Options, s: State, a: Attempt, ip: string)
    requires a.ip != ip
    ensures EntryOf(LoggedIn(o, s, a, false).entries, ip) == EntryOf(s.entries, ip)
  {
    hide AddFailure, AccountAfter, Compares, IpBlocked;
  }

  lemma {:induction false} EntriesMatch(o: Options, es: seq<Event>, ip: string)
    requires Positive(o) && InOrder(es) && ip != ""
    ensures EntryMatches(o, EntryOf(Run(o, es, false).entries, ip), TallyOf(o, es, ip), LastTime(es))
    decreases |es|
  {
    hide LoggedIn, TallyAfter, OutcomeOf, RowFor, EntryMatches, EntryOf, Compares, FailedAfterMatch, AccountMatches;
    if es == [] {
      NoEntry(ip);
      NoFailuresMatch(o, 0);
    } else {
      var n := |es| - 1;
      var before, e := es[..n], es[n];
      EntriesMatch(o, before, ip);
      var was := if n > 0 then LastTime(before) else At(e);
      if n == 0 {
        NoEntry(ip);
        NoFailuresMatch(o, was);
      }
      var s, tally := Run(o, before, false), TallyOf(o, before, ip);
      if e.Try? && e.a.ip == ip {
        SameComparison(o, es, n);
        StateMatches(o, before, e.a);
        MatchedIs(o, Run(o, before, true), e.a, StreakOf(o, before, e.a.user));
        EntryStep(o, s, e.a, tally, was, Matched(o, es, n));
      } else {
        Waits(o, EntryOf(s.entries, ip), tally, was, At(e));
        if e.Try? {
          OtherEntries(o, s, e.a, ip);
        }
      }
    }
  }

  lemma NoEntry(ip: string)
    ensures EntryOf(map[], ip) == IpEntry([], None)
  {
  }

  lemma StateMatches(o: Options, es: seq<Event>, a: Attempt)
    requires Positive(o)
    ensures var accounts, streak := Run(o, es, true).accounts, StreakOf(o, es, a.user);
      && (a.user in accounts <==> Exists(es, a.user))
      && (a.user in accounts ==> accounts[a.user] == RowFor(o, streak))
      && (a.user !in accounts ==> streak == NO_FAILURES)
  {
    AccountsMatch(o, es, a.user);
  }

  // ---- main results ----

  lemma BlockedIs(o: Options, es: seq<Event>, a: Attempt)
    requires Positive(o) && InOrder(es + [Try(a)])
    ensures IpBlocked(Run(o, es, true).entries, a.ip, a.at) <==> AddressIsBlocked(o, es, a.ip, a.at)
  {
    hide Run, TallyOf, Recent;
    var all := es + [Try(a)];
    assert all[..|es|] == es;
    PrefixInOrder(es, Try(a));
    BlockedEitherWay(o, es, a);
    if a.ip != "" {
      EntriesMatch(o, es, a.ip);
    }
  }

  lemma PrefixInOrder(es: seq<Event>, e: Event)
    requires InOrder(es + [e])
    ensures InOrder(es)
    ensures es != [] ==> LastTime(es) <= At(e)
  {
    var all := es + [e];
    forall i, j | 0 <= i < j < |es| ensures At(es[i]) <= At(es[j]) {
      assert all[i] == es[i] && all[j] == es[j];
    }
    if es != [] {
      assert all[|es| - 1] == es[|es| - 1] && all[|es|] == e;
    }
  }

  lemma BlockedEitherWay(o: Options, es: seq<Event>, a: Attempt)
    requires Positive(o) && InOrder(es + [Try(a)])
    ensures IpBlocked(Run(o, es, true).entries, a.ip, a.at) == IpBlocked(Run(o, es, false).entries, a.ip, a.at)
  {
    hide Run, Simulates, IpBlocked;
    PrefixInOrder(es, Try(a));
    RunsSimulate(o, es);
    if es == [] {
      EmptyRuns(o);
    } else {
      TimePasses(o, Run(o, es, true).entries, Run(o, es, false).entries, LastTime(es), a.at);
      SameBlocked(o, Run(o, es, true).entries, Run(o, es, false).entries, a.ip, a.at);
    }
  }

  lemma EmptyRuns(o: Options)
    ensures Run(o, [], true) == Run(o, [], false)
  {
  }

  // The outcome of a login with a working database, exactly: the address blocked, the account unknown, the
  // account locked, the password wrong, or else success. Blocked and locked are read off the history: the
  // failures since the last success, reset or lock that ran out, against the limits.
  lemma OutcomeExactly(o: Options, es: seq<Event>, a: Attempt)
    requires Positive(o) && InOrder(es + [Try(a)])
    requires !a.lookupFails && !a.clearFails && !a.resetFails && !a.sessionFails
    ensures OutcomeOf(Run(o, es, true), a)
         == if AddressIsBlocked(o, es, a.ip, a.at) then AddressBlocked
            else if !Exists(es, a.user) then UnknownAccount
            else if AccountIsLocked(o, es, a.user, a.at) then AccountLocked
            else if a.good then Success
            else BadPassword
  {
    hide Run, TallyOf, StreakOf, IpBlocked, AddressIsBlocked, Exists;
    BlockedIs(o, es, a);
    StateMatches(o, es, a);
  }

  // A right password lets in exactly when the address is not blocked and the account, which exists, is not
  // locked; a wrong one never does, whatever fails.
  lemma SuccessExactlyWhen(o: Options, es: seq<Event>, a: Attempt)
    requires Positive(o) && InOrder(es + [Try(a)])
    ensures a.good && !a.lookupFails && !a.clearFails && !a.resetFails && !a.sessionFails ==>
              (OutcomeOf(Run(o, es, true), a) == Success <==>
                 Exists(es, a.user) && !AddressIsBlocked(o, es, a.ip, a.at) && !AccountIsLocked(o, es, a.user, a.at))
    ensures !a.good ==> OutcomeOf(Run(o, es, true), a) != Success
  {
    hide Run, IpBlocked, AddressIsBlocked, Exists, AccountIsLocked;
    if !a.lookupFails && !a.clearFails && !a.resetFails && !a.sessionFails {
      OutcomeExactly(o, es, a);
    }
  }

  // After a success neither the account nor the address has a failure left.
  lemma SuccessClears(o: Options, es: seq<Event>, a: Attempt)
    requires Positive(o) && InOrder(es + [Try(a)]) && OutcomeOf(Run(o, es, true), a) == Success
    ensures var after := Run(o, es + [Try(a)], true);
      && after.accounts[a.user] == UNLOCKED && a.ip !in after.entries
    ensures StreakOf(o, es + [Try(a)], a.user) == NO_FAILURES && TallyOf(o, es + [Try(a)], a.ip) == NO_TALLY
  {
    hide IpBlocked, TallyOf, StreakOf;
    var all := es + [Try(a)];
    assert all[..|es|] == es && all[|es|] == Try(a);
    StreakAndTallyStep(o, es, a);
  }

  lemma StreakAndTallyStep(o: Options, es: seq<Event>, a: Attempt)
    requires OutcomeOf(Run(o, es, true), a) == Success
    ensures StreakOf(o, es + [Try(a)], a.user) == NO_FAILURES && TallyOf(o, es + [Try(a)], a.ip) == NO_TALLY
  {
    hide OutcomeOf, Run;
    var all := es + [Try(a)];
    assert all[..|es|] == es && all[|es|] == Try(a);
    assert Told(o, all, |es|) == Success;
  }

  // A table of addresses that has grown past its limit holds, besides the newest, only those that are blocked or
  // failed within the window.
  lemma TableIsBounded(o: Options, s: State, a: Attempt)
    ensures var entries := LoggedIn(o, s, a, true).entries;
      IsFailure(OutcomeOf(s, a)) && a.ip != "" ==>
        |entries| <= MAX_TRACKED_IPS || forall ip | ip in entries && ip != a.ip :: !Expired(o, entries[ip], a.at)
  {
    hide AddFailure, Expired, OutcomeOf, AccountAfter;
    var kept := Pruned(o, s.entries, a.at);
    if IsFailure(OutcomeOf(s, a)) && a.ip != "" {
      assert LoggedIn(o, s, a, true).entries.Keys == kept.Keys + {a.ip};
    }
  }
}
