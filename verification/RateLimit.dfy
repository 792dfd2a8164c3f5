/** The login rate limiter: a sliding window of accepted attempts per key, pruned in place at each hit. */
module RateLimit {

  type Key = string
  type Time = int

  /** The entries strictly after `cutoff`, in order. */
  function Kept(s: seq<Time>, cutoff: Time): (r: seq<Time>)
    ensures |r| <= |s|
  {
    if s == [] then []
    else if s[|s| - 1] > cutoff then Kept(s[..|s| - 1], cutoff) + [s[|s| - 1]]
    else Kept(s[..|s| - 1], cutoff)
  }

  function Hits(hits: map<Key, seq<Time>>, key: Key): seq<Time> {
    if key in hits then hits[key] else []
  }

  datatype Config = Config(limit: int, window: nat)

  /** One call: the verdict and the new table. */
  function Allow(c: Config, hits: map<Key, seq<Time>>, key: Key, now: Time): (bool, map<Key, seq<Time>>) {
    var kept := Kept(Hits(hits, key), now - c.window);
    if |kept| >= c.limit then (false, hits[key := kept]) else (true, hits[key := kept + [now]])
  }

  class LoginRateLimiter {
    const window: nat
    const limit: int
    var hits: map<Key, seq<Time>>

    constructor (limit: int, window: nat)
      ensures this.limit == limit && this.window == window && hits == map[]
    {
      this.limit, this.window, hits := limit, window, map[];
    }

    /**
     Prunes a list inside its own storage: the kept entries are appended to its empty prefix
     while the loop still reads behind them.
     */
    static method PruneInPlace(a: array<Time>, cutoff: Time) returns (n: nat)
      modifies a
      ensures n <= a.Length && a[..n] == Kept(old(a[..]), cutoff)
    {
      n := 0;
      ghost var was := a[..];
      for i := 0 to a.Length
        invariant n <= i && a[i..] == was[i..] && a[..n] == Kept(was[..i], cutoff)
      {
        assert was[..i + 1][..i] == was[..i];
        var ts := a[i];
        assert ts == a[i..][0] == was[i] && a[i + 1..] == a[i..][1..] == was[i + 1..];
        if ts > cutoff {
          ghost var kept := a[..n];
          a[n] := ts;
          assert a[..n + 1] == kept + [ts];
          n := n + 1;
        }
      }
      assert was[..a.Length] == was;
    }

    method AllowAt(key: Key, now: Time) returns (ok: bool)
      modifies this
      ensures Allow(Config(limit, window), old(hits), key, now) == (ok, hits)
    {
      var cutoff := now - window;
      var list := Hits(hits, key);
      var a := new Time[|list|](i requires 0 <= i < |list| => list[i]);
      assert a[..] == list;
      var n := PruneInPlace(a, cutoff);
      var kept := a[..n];
      if |kept| >= limit {
        hits := hits[key := kept];
        return false;
      }
      hits := hits[key := kept + [now]];
      return true;
    }
  }

  // ---- Runs ----

  datatype Attempt = Attempt(key: Key, now: Time)

  ghost predicate ClockRuns(attempts: seq<Attempt>) {
    forall i, j | 0 <= i < j < |attempts| :: attempts[i].now <= attempts[j].now
  }

  /** The table after all attempts, from an empty one. */
  function TableAfter(c: Config, attempts: seq<Attempt>): map<Key, seq<Time>> {
    if attempts == [] then map[]
    else
      var last := attempts[|attempts| - 1];
      Allow(c, TableAfter(c, attempts[..|attempts| - 1]), last.key, last.now).1
  }

  /** The verdict on the i-th attempt. */
  function Verdict(c: Config, attempts: seq<Attempt>, i: nat): bool
    requires i < |attempts|
  {
    Allow(c, TableAfter(c, attempts[..i]), attempts[i].key, attempts[i].now).0
  }

  /** The accepted attempts with this key in the window (lo, hi]. */
  ghost function AcceptedIn(c: Config, attempts: seq<Attempt>, key: Key, lo: Time, hi: Time): set<nat> {
    set i: nat | i < |attempts| && attempts[i].key == key && lo < attempts[i].now <= hi && Verdict(c, attempts, i)
  }

  /** The times at which attempts with this key were accepted. */
  function Accepted(c: Config, attempts: seq<Attempt>, key: Key): seq<Time> {
    if attempts == [] then []
    else
      var n := |attempts| - 1;
      if attempts[n].key == key && Verdict(c, attempts, n)
      then Accepted(c, attempts[..n], key) + [attempts[n].now]
      else Accepted(c, attempts[..n], key)
  }

  lemma KeptAppend(s: seq<Time>, x: Time, c: Time)
    ensures Kept(s + [x], c) == if x > c then Kept(s, c) + [x] else Kept(s, c)
  {
    assert (s + [x])[..|s|] == s;
  }

  lemma {:induction false} KeptTwice(s: seq<Time>, c: Time, d: Time)
    requires c <= d
    ensures Kept(Kept(s, c), d) == Kept(s, d)
  {
    if s != [] {
      var n := |s| - 1;
      KeptTwice(s[..n], c, d);
      KeptAppend(Kept(s[..n], c), s[n], d);
    }
  }

  lemma AllowFacts(c: Config, hits: map<Key, seq<Time>>, key: Key, now: Time, other: Key)
    ensures
      var kept := Kept(Hits(hits, key), now - c.window);
      var (ok, after) := Allow(c, hits, key, now);
      ok == (|kept| < c.limit) &&
      Hits(after, other) == if other != key then Hits(hits, other) else if ok then kept + [now] else kept
  {
    hide Kept;
  }

  lemma Unfold(c: Config, attempts: seq<Attempt>)
    requires attempts != []
    ensures
      var n := |attempts| - 1;
      (Verdict(c, attempts, n), TableAfter(c, attempts)) ==
        Allow(c, TableAfter(c, attempts[..n]), attempts[n].key, attempts[n].now)
  {
    hide Kept, Allow, Hits;
  }

  lemma TableStep(c: Config, attempts: seq<Attempt>, key: Key)
    requires attempts != []
    ensures
      var n := |attempts| - 1;
      var before := Hits(TableAfter(c, attempts[..n]), key);
      var kept := Kept(before, attempts[n].now - c.window);
      Hits(TableAfter(c, attempts), key) ==
        if attempts[n].key != key then before
        else if Verdict(c, attempts, n) then kept + [attempts[n].now] else kept
  {
    hide Kept, Allow, Hits, TableAfter, Verdict;
    var n := |attempts| - 1;
    Unfold(c, attempts);
    AllowFacts(c, TableAfter(c, attempts[..n]), attempts[n].key, attempts[n].now, key);
  }

  /** From the last attempt's window on, the pruned list holds what the whole accepted history holds. */
  lemma {:induction false} TableIsHistory(c: Config, attempts: seq<Attempt>, key: Key, cutoff: Time)
    requires ClockRuns(attempts)
    requires attempts != [] ==> attempts[|attempts| - 1].now - c.window <= cutoff
    ensures Kept(Hits(TableAfter(c, attempts), key), cutoff) == Kept(Accepted(c, attempts, key), cutoff)
  {
    hide Kept, Verdict;
    if attempts == [] {
      assert Hits(TableAfter(c, attempts), key) == [];
    } else {
      var n := |attempts| - 1;
      var before, now := Hits(TableAfter(c, attempts[..n]), key), attempts[n].now;
      TableIsHistory(c, attempts[..n], key, cutoff);
      TableStep(c, attempts, key);
      KeptTwice(before, now - c.window, cutoff);
      KeptAppend(Kept(before, now - c.window), now, cutoff);
      KeptAppend(Accepted(c, attempts[..n], key), now, cutoff);
    }
  }

  /**
   Right after an attempt the stored list is the whole accepted history cut to the attempt's window,
   except that with an empty window it still holds the attempt just accepted.
   */
  lemma StoredIsHistoryIff(c: Config, attempts: seq<Attempt>)
    requires ClockRuns(attempts) && attempts != []
    ensures
      var n := |attempts| - 1;
      var (key, now) := (attempts[n].key, attempts[n].now);
      Hits(TableAfter(c, attempts), key) == Kept(Accepted(c, attempts, key), now - c.window) <==>
        c.window > 0 || !Verdict(c, attempts, n)
  {
    hide Kept, Verdict, TableAfter, Hits;
    var n := |attempts| - 1;
    var key, now := attempts[n].key, attempts[n].now;
    TableStep(c, attempts, key);
    TableIsHistory(c, attempts[..n], key, now - c.window);
    KeptAppend(Accepted(c, attempts[..n], key), now, now - c.window);
  }

  lemma AcceptedInStep(c: Config, attempts: seq<Attempt>, key: Key, lo: Time, hi: Time)
    requires attempts != []
    ensures
      var n := |attempts| - 1;
      var before := AcceptedIn(c, attempts[..n], key, lo, hi);
      n !in before &&
      AcceptedIn(c, attempts, key, lo, hi) ==
        if attempts[n].key == key && lo < attempts[n].now <= hi && Verdict(c, attempts, n)
        then before + {n} else before
  {
    var n := |attempts| - 1;
    forall i: nat | i < n ensures Verdict(c, attempts[..n], i) == Verdict(c, attempts, i) {
      assert attempts[..n][..i] == attempts[..i];
    }
  }

  lemma {:induction false} SizeIsKept(c: Config, attempts: seq<Attempt>, key: Key, lo: Time, hi: Time)
    requires forall i | 0 <= i < |attempts| :: attempts[i].now <= hi
    ensures |AcceptedIn(c, attempts, key, lo, hi)| == |Kept(Accepted(c, attempts, key), lo)|
  {
    hide Verdict;
    if attempts == [] {
      assert AcceptedIn(c, attempts, key, lo, hi) == {};
    } else {
      var n := |attempts| - 1;
      SizeIsKept(c, attempts[..n], key, lo, hi);
      AcceptedInStep(c, attempts, key, lo, hi);
      KeptAppend(Accepted(c, attempts[..n], key), attempts[n].now, lo);
    }
  }

  /** An attempt is let through exactly when fewer than `limit` accepted ones lie in its own window. */
  lemma VerdictCountsWindow(c: Config, attempts: seq<Attempt>, i: nat)
    requires ClockRuns(attempts) && i < |attempts|
    ensures
      var a := attempts[i];
      Verdict(c, attempts, i) <==> |AcceptedIn(c, attempts[..i], a.key, a.now - c.window, a.now)| < c.limit
  {
    hide Kept, TableAfter, Accepted, AcceptedIn;
    var a := attempts[i];
    TableIsHistory(c, attempts[..i], a.key, a.now - c.window);
    SizeIsKept(c, attempts[..i], a.key, a.now - c.window, a.now);
  }

  lemma Subset(a: set<nat>, b: set<nat>)
    requires a <= b
    ensures |a| <= |b|
  {
    assert b == a + (b - a);
  }

  /** At most `limit` attempts per key are accepted in any window, wherever it ends. */
  lemma {:induction false} AtMostLimit(c: Config, attempts: seq<Attempt>, key: Key, t: Time)
    requires ClockRuns(attempts) && c.limit >= 0
    ensures |AcceptedIn(c, attempts, key, t - c.window, t)| <= c.limit
  {
    hide Verdict;
    if attempts != [] {
      var n := |attempts| - 1;
      var now := attempts[n].now;
      AcceptedInStep(c, attempts, key, t - c.window, t);
      if attempts[n].key == key && t - c.window < now <= t && Verdict(c, attempts, n) {
        VerdictCountsWindow(c, attempts, n);
        Subset(AcceptedIn(c, attempts[..n], key, t - c.window, t),
               AcceptedIn(c, attempts[..n], key, now - c.window, now));
      } else {
        AtMostLimit(c, attempts[..n], key, t);
      }
    }
  }

  /** A refusal means exactly `limit` accepted attempts lie in the refused one's window, and back. */
  lemma RefusedIffWindowFull(c: Config, attempts: seq<Attempt>, i: nat)
    requires ClockRuns(attempts) && i < |attempts| && c.limit >= 0
    ensures
      var a := attempts[i];
      !Verdict(c, attempts, i) <==> |AcceptedIn(c, attempts[..i], a.key, a.now - c.window, a.now)| == c.limit
  {
    VerdictCountsWindow(c, attempts, i);
    AtMostLimit(c, attempts[..i], attempts[i].key, attempts[i].now);
  }
}
