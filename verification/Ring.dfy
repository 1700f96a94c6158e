// internal/analytics/aggregator.go, the ring: the fixed-size buffer of the most recent records.
module Ring {

  import opened Tailer
  import opened Wrappers

  // The last n elements of s, or all of it.
  function LastOf<T>(s: seq<T>, n: nat): seq<T> {
    if |s| <= n then s else s[|s| - n..]
  }

  predicate Wanted(r: Record, username: string) {
    username == "" || r.username == username
  }

  // The records of s a query asks for, oldest first.
  function Matching(s: seq<Record>, username: string): seq<Record> {
    if s == [] then [] else
      var last := s[|s| - 1];
      Matching(s[..|s| - 1], username) + if Wanted(last, username) then [last] else []
  }

  // The newest limit wanted records among the first n of s, newest first.
  function Newest(s: seq<Record>, n: nat, limit: nat, username: string): (r: seq<Record>)
    requires n <= |s|
    ensures |r| <= limit
  {
    if n == 0 || limit == 0 then []
    else if Wanted(s[n - 1], username) then [s[n - 1]] + Newest(s, n - 1, limit - 1, username)
    else Newest(s, n - 1, limit, username)
  }

  // A query answers with the limit newest wanted records, in reverse order of arrival.
  lemma {:induction false} NewestIs(s: seq<Record>, n: nat, limit: nat, username: string)
    requires n <= |s|
    ensures var m, r := Matching(s[..n], username), Newest(s, n, limit, username);
      && |r| == (if limit < |m| then limit else |m|)
      && forall i | 0 <= i < |r| :: r[i] == m[|m| - 1 - i]
    decreases n
  {
    if n > 0 && limit > 0 {
      assert s[..n][..n - 1] == s[..n - 1];
      NewestIs(s, n - 1, if Wanted(s[n - 1], username) then limit - 1 else limit, username);
    }
  }

  lemma {:induction false} MatchingIsShorter(s: seq<Record>, username: string)
    ensures |Matching(s, username)| <= |s|
    decreases |s|
  {
    if s != [] {
      MatchingIsShorter(s[..|s| - 1], username);
    }
  }

  // What a buffer holds, oldest first: the slots from next onwards are the oldest once it is full.
  function Held(b: seq<Record>, next: nat, size: nat): (s: seq<Record>)
    requires next < |b| && size <= |b| && (size < |b| ==> next == size)
    ensures |s| == size
  {
    if size < |b| then b[..next] else b[next..] + b[..next]
  }

  lemma Pushed(b: seq<Record>, next: nat, size: nat, rec: Record)
    requires next < |b| && size <= |b| && (size < |b| ==> next == size)
    ensures (next + 1) % |b| == if next + 1 == |b| then 0 else next + 1
    ensures Held(b[next := rec], (next + 1) % |b|, if size < |b| then size + 1 else size)
            == LastOf(Held(b, next, size) + [rec], |b|)
  {
    hide Held, LastOf;
    if next + 1 < |b| {
      SmallMod(next + 1, |b|);
    }
    if size < |b| {
      PushedPartial(b, next, rec);
    } else if next + 1 < |b| {
      PushedInside(b, next, rec);
    } else {
      PushedAtEnd(b, rec);
    }
  }

  lemma PushedPartial(b: seq<Record>, next: nat, rec: Record)
    requires next < |b|
    ensures Held(b[next := rec], if next + 1 == |b| then 0 else next + 1, next + 1)
            == LastOf(Held(b, next, next) + [rec], |b|)
  {
    var after := b[next := rec];
    assert after[..next + 1] == b[..next] + [rec];
    if next + 1 == |b| {
      assert after[0..] + after[..0] == after == after[..next + 1];
    }
  }

  lemma PushedInside(b: seq<Record>, next: nat, rec: Record)
    requires next + 1 < |b|
    ensures Held(b[next := rec], next + 1, |b|) == LastOf(Held(b, next, |b|) + [rec], |b|)
  {
    var after, t, h := b[next := rec], b[next + 1..], b[..next];
    assert after[..next + 1] == h + [rec] && after[next + 1..] == t;
    assert b[next..] == [b[next]] + t;
    DropOldest(b[next], t, h, rec);
  }

  lemma PushedAtEnd(b: seq<Record>, rec: Record)
    requires b != []
    ensures Held(b[|b| - 1 := rec], 0, |b|) == LastOf(Held(b, |b| - 1, |b|) + [rec], |b|)
  {
    var last := |b| - 1;
    var after, h := b[last := rec], b[..last];
    assert after[0..] + after[..0] == h + [rec];
    assert b[last..] == [b[last]];
    DropOldest(b[last], [], h, rec);
    assert [b[last]] + [] == [b[last]] && [] + (h + [rec]) == h + [rec];
  }

  lemma DropOldest(x: Record, t: seq<Record>, h: seq<Record>, rec: Record)
    ensures (([x] + t) + h + [rec])[1..] == t + (h + [rec])
  {
  }

  lemma SmallMod(i: nat, n: nat)
    requires i < n
    ensures i % n == i && (i + n) % n == i
  {
  }

  // The slot of the i-th newest record.
  function SlotOf(next: nat, i: nat, n: nat): (k: nat)
    requires next < n && i < n
    ensures k < n
  {
    (next - 1 - i + n) % n
  }

  lemma SlotHolds(b: seq<Record>, next: nat, size: nat, i: nat)
    requires next < |b| && i < size <= |b| && (size < |b| ==> next == size)
    ensures b[SlotOf(next, i, |b|)] == Held(b, next, size)[size - 1 - i]
  {
    if i < next {
      SmallMod(next - 1 - i, |b|);
    } else {
      SmallMod(next - 1 - i + |b|, |b|);
    }
  }

  class Ring {
    const buf: array<Record>
    var next: nat
    var size: nat

    ghost predicate Valid()
      reads this
    {
      && next < buf.Length
      && size <= buf.Length
      && (size < buf.Length ==> next == size)
    }

    // Oldest first.
    ghost function Contents(): (s: seq<Record>)
      reads this, buf
      requires Valid()
      ensures |s| == size
    {
      Held(buf[..], next, size)
    }

    constructor (capacity: nat)
      requires capacity > 0
      ensures Valid() && fresh(buf) && buf.Length == capacity && Contents() == []
    {
      buf := new Record[capacity](_ => Record(0, "", "", "", 0, "", false, 0, 0));
      next, size := 0, 0;
    }

    method Add(rec: Record)
      requires Valid()
      modifies this, buf
      ensures Valid()
      ensures Contents() == LastOf(old(Contents()) + [rec], buf.Length)
    {
      ghost var was := buf[..];
      Pushed(was, next, size, rec);
      buf[next] := rec;
      assert buf[..] == was[next := rec];
      next := (next + 1) % buf.Length;
      if size < buf.Length {
        size := size + 1;
      }
    }

    // recent walks from the newest record backwards.
    method Recent(limit: int, username: string) returns (out: seq<Record>)
      requires Valid()
      ensures out == Newest(Contents(), size, AtLeastZero(limit), username)
    {
      hide Newest, Held, SlotOf, Wanted;
      ghost var all, b := Contents(), buf[..];
      LimitBySize(all, AtLeastZero(limit), username);
      var n := if limit < size then limit else size;
      ghost var want := AtLeastZero(n);
      out := [];
      assert out + Newest(all, size, want, username) == Newest(all, size, want, username);
      var i := 0;
      while i < size && |out| < n
        invariant 0 <= i <= size && |out| <= want
        invariant out + Newest(all, size - i, want - |out|, username) == Newest(all, size, want, username)
      {
        SlotHolds(b, next, size, i);
        var rec := buf[SlotOf(next, i, buf.Length)];
        assert rec == all[size - i - 1];
        NewestStep(all, size - i, want - |out|, username, out);
        i := i + 1;
        if !Wanted(rec, username) {
          continue;
        }
        out := out + [rec];
      }
      NewestOfNothing(all, size - i, want - |out|, username);
      assert out + [] == out;
    }
  }

  lemma NewestStep(s: seq<Record>, n: nat, limit: nat, username: string, out: seq<Record>)
    requires 0 < n <= |s| && limit > 0
    ensures out + Newest(s, n, limit, username)
            == if Wanted(s[n - 1], username) then (out + [s[n - 1]]) + Newest(s, n - 1, limit - 1, username)
               else out + Newest(s, n - 1, limit, username)
  {
  }

  lemma NewestOfNothing(s: seq<Record>, n: nat, limit: nat, username: string)
    requires n <= |s|
    ensures n == 0 || limit == 0 ==> Newest(s, n, limit, username) == []
  {
  }

  lemma LimitBySize(s: seq<Record>, limit: nat, username: string)
    ensures Newest(s, |s|, limit, username) == Newest(s, |s|, if limit < |s| then limit else |s|, username)
  {
    assert s[..|s|] == s;
    MatchingIsShorter(s, username);
    NewestIs(s, |s|, limit, username);
    NewestIs(s, |s|, if limit < |s| then limit else |s|, username);
  }

  // A ring that has been given the records rs, in order.
  function Retained(rs: seq<Record>, capacity: nat): seq<Record> {
    if rs == [] then [] else LastOf(Retained(rs[..|rs| - 1], capacity) + [rs[|rs| - 1]], capacity)
  }

  lemma LastOfTwice(s: seq<Record>, x: Record, n: nat)
    requires n > 0
    ensures LastOf(LastOf(s, n) + [x], n) == LastOf(s + [x], n)
  {
    var a, b := LastOf(s, n) + [x], s + [x];
    if |s| >= n {
      assert a == s[|s| - n..] + [x];
      assert LastOf(a, n) == a[1..];
      assert s[|s| - n..][1..] == s[|s| - n + 1..];
      assert LastOf(b, n) == s[|s| - n + 1..] + [x];
    }
  }

  // Whatever was added, the ring holds exactly the last capacity records.
  lemma {:induction false} RetainsTheLast(rs: seq<Record>, capacity: nat)
    requires capacity > 0
    ensures Retained(rs, capacity) == LastOf(rs, capacity)
    decreases |rs|
  {
    if rs != [] {
      var before := rs[..|rs| - 1];
      RetainsTheLast(before, capacity);
      LastOfTwice(before, rs[|rs| - 1], capacity);
      assert before + [rs[|rs| - 1]] == rs;
    }
  }
}
