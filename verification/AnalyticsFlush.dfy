// One call of flush in internal/analytics/service.go is a run of the pipeline's atomic steps, when nothing
// else happens meanwhile.
module AnalyticsFlush {

  import opened Tailer
  import opened Aggregator
  import opened AnalyticsService
  import opened AnalyticsRun

  function Times(c: Setup, step: Step, s: State, n: nat): State
    decreases n
  {
    if n == 0 then s else Times(c, step, Next(c, step, s), n - 1)
  }

  lemma FoldAllHead(users: Users, rs: seq<Record>, maxDests: int)
    requires rs != []
    ensures FoldAll(users, rs, maxDests) == FoldAll(Fold(users, rs[0], maxDests), rs[1..], maxDests)
    decreases |rs|
  {
    hide Fold;
    if |rs| > 1 {
      var before := rs[..|rs| - 1];
      FoldAllHead(users, before, maxDests);
      assert before[1..] == rs[1..][..|rs| - 2];
    } else {
      assert rs[..0] == [];
    }
  }

  // The drain loop: one step for each queued record.
  lemma {:induction false} DrainSteps(c: Setup, s: State)
    requires s.phase.Draining?
    ensures Times(c, Consume, s, |s.queue|)
            == s.(queue := [], folded := s.folded + s.queue,
                  users := FoldAll(s.users, Records(s.queue), c.maxDests))
    decreases |s.queue|
  {
    hide Fold;
    if s.queue != [] {
      var t := Next(c, Consume, s);
      DrainSteps(c, t);
      assert Records(s.queue)[1..] == Records(t.queue);
      FoldAllHead(s.users, Records(s.queue), c.maxDests);
      assert t.folded + t.queue == s.folded + s.queue;
    } else {
      assert s.folded + [] == s.folded;
    }
  }

  // The state a flush has reached when it has merged the retry batch and read the offset.
  function Merged(c: Setup, s: State, out: seq<PendingDelta>): State {
    var drained := Next(c, DrainDone, Times(c, Consume, Next(c, StartFlush, s), |s.queue|));
    Next(c, Locate, Next(c, Take(out), drained))
  }

  // The batch waits for the next flush.
  predicate Failed(s: State, t: State, pending: seq<PendingDelta>) {
    t.phase.Idle? && t.retry == pending && t.cursor == s.cursor && t.lastPersisted == s.lastPersisted
  }

  // The known users' deltas are written with the cursor.
  predicate Persisted(s: State, t: State, pending: seq<PendingDelta>, known: set<string>) {
    && t.phase.Idle? && t.retry == [] && t.cursor == t.lastPersisted == s.offset
    && t.applied == s.applied + Only(pending, known, true)
  }

  // What the steps leave agrees with what Flush ensures of the queue, the aggregator, the retry batch and the
  // cursor, for each of its outcomes.
  lemma FlushIsARun(c: Setup, s: State, out: seq<PendingDelta>, known: set<string>)
    requires s.phase.Idle? && s.batch == [] && s.batched == []
    requires ListsAll(out, FoldAll(s.users, Records(s.queue), c.maxDests))
    ensures var pending, t := s.retry + out, Merged(c, s, out);
      && t.queue == [] && t.users == map[] && t.offset == s.offset && t.cursor == s.cursor
      && t.lastPersisted == s.lastPersisted && t.inflight == s.inflight && t.applied == s.applied
      && if pending == [] && s.offset == s.lastPersisted then t.phase.Idle? && t.retry == [] && t.batch == []
         else
           && t.phase == Located(s.offset) && t.batch == pending
           && Failed(s, Next(c, Fail, t), pending)
           && Persisted(s, Next(c, Persist(known), t), pending, known)
  {
    hide Fold, FoldAll, ListsAll, Only, Times;
    DrainSteps(c, Next(c, StartFlush, s));
  }

  // ApplyDeltas receives the deltas of exactly the users the store knows.
  lemma {:induction false} ResolvesTheKnown(ps: seq<PendingDelta>, known: set<string>, lookup: string -> Lookup)
    requires forall i | 0 <= i < |ps| :: ps[i].username in known <==> IdOf(lookup, ps[i].username) != 0
    ensures ResolvedUsage(ps, lookup) == ResolvedUsage(Only(ps, known, true), lookup)
    ensures ResolvedDests(ps, lookup) == ResolvedDests(Only(ps, known, true), lookup)
    decreases |ps|
  {
    hide IdOf, TaggedUsage, TaggedDests;
    if ps != [] {
      var before, p := ps[..|ps| - 1], ps[|ps| - 1];
      ResolvesTheKnown(before, known, lookup);
      var inside := Only(before, known, true);
      if p.username in known {
        assert (inside + [p])[..|inside|] == inside;
      } else {
        assert inside + [] == inside;
      }
    }
  }
}
