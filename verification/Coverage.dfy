/**
 Coverage spans: the loop that coalesces recording spans of one camera when they overlap or
 lie less than a minute apart. Times are seconds; the query returns spans by camera and start.
 */
module Coverage {

  datatype Span = Span(cam: nat, start: int, end: int, audio: bool)

  const GAP: int := 60

  predicate NotAfter(a: Span, b: Span) {
    a.cam < b.cam || (a.cam == b.cam && a.start <= b.start)
  }

  ghost predicate Sorted(s: seq<Span>) {
    forall i, j | 0 <= i < j < |s| :: NotAfter(s[i], s[j])
  }

  function TimeDiffSeconds(a: int, b: int): int {
    if b - a < 0 then a - b else b - a
  }

  /** The loop keeps extending the open span `cur` with `s`. */
  predicate Joins(cur: Span, s: Span) {
    s.cam == cur.cam && (s.start <= cur.end || TimeDiffSeconds(cur.end, s.start) < GAP)
  }

  function Extend(cur: Span, s: Span): Span {
    cur.(end := if s.end > cur.end then s.end else cur.end, audio := cur.audio || s.audio)
  }

  /** The open span after the i-th input. */
  function Current(s: seq<Span>, i: nat): Span
    requires i < |s|
  {
    if i == 0 then s[0]
    else if Joins(Current(s, i - 1), s[i]) then Extend(Current(s, i - 1), s[i]) else s[i]
  }

  /** The spans closed before the i-th input was taken in. */
  function Closed(s: seq<Span>, i: nat): (c: seq<Span>)
    requires i < |s|
    ensures |c| == Group(s, i)
  {
    if i == 0 then []
    else if Joins(Current(s, i - 1), s[i]) then Closed(s, i - 1)
    else Closed(s, i - 1) + [Current(s, i - 1)]
  }

  /** The number of the output span the i-th input lands in. */
  function Group(s: seq<Span>, i: nat): nat
    requires i < |s|
  {
    if i == 0 then 0
    else Group(s, i - 1) + (if Joins(Current(s, i - 1), s[i]) then 0 else 1)
  }

  function Merge(s: seq<Span>): (m: seq<Span>)
    ensures |m| == if s == [] then 0 else Group(s, |s| - 1) + 1
  {
    if s == [] then [] else Closed(s, |s| - 1) + [Current(s, |s| - 1)]
  }

  method MergeSpans(spans: seq<Span>) returns (merged: seq<Span>)
    ensures merged == Merge(spans)
  {
    if |spans| == 0 {
      return [];
    }
    merged := [];
    var current := spans[0];
    for i := 1 to |spans|
      invariant merged == Closed(spans, i - 1) && current == Current(spans, i - 1)
    {
      var s := spans[i];
      if s.cam != current.cam {
        merged := merged + [current];
        current := s;
        continue;
      }
      if s.start <= current.end || TimeDiffSeconds(current.end, s.start) < GAP {
        if s.end > current.end {
          current := current.(end := s.end);
        }
        current := current.(audio := current.audio || s.audio);
      } else {
        merged := merged + [current];
        current := s;
      }
    }
    merged := merged + [current];
  }

  // ---- Groups ----

  lemma {:induction false} GroupsGrow(s: seq<Span>, i: nat, j: nat)
    requires i <= j < |s|
    ensures Group(s, i) <= Group(s, j) <= Group(s, i) + (j - i)
  {
    if i < j { GroupsGrow(s, i, j - 1); }
  }

  /** Every group number up to the last one occurs. */
  lemma {:induction false} GroupOccurs(s: seq<Span>, n: nat, g: nat) returns (lo: nat, hi: nat)
    requires n < |s| && g <= Group(s, n)
    ensures lo <= hi <= n && Group(s, lo) == g == Group(s, hi)
    ensures forall i | 0 <= i <= n :: Group(s, i) == g <==> lo <= i <= hi
    ensures lo == 0 || !Joins(Current(s, lo - 1), s[lo])
    ensures hi == n || !Joins(Current(s, hi), s[hi + 1])
  {
    if n == 0 {
      lo, hi := 0, 0;
    } else if g == Group(s, n - 1) + 1 {
      lo, hi := n, n;
      forall i | 0 <= i < n ensures Group(s, i) < g { GroupsGrow(s, i, n - 1); }
    } else {
      lo, hi := GroupOccurs(s, n - 1, g);
      if g == Group(s, n) {
        assert hi == n - 1;
        hi := n;
      }
    }
  }

  /** The open span covers every input of its group so far, and reaches no further. */
  lemma {:induction false} CurrentCovers(s: seq<Span>, i: nat, j: nat)
    requires Sorted(s) && j <= i < |s| && Group(s, j) == Group(s, i)
    ensures
      var c := Current(s, i);
      c.cam == s[j].cam && c.start <= s[j].start && c.end >= s[j].end && (s[j].audio ==> c.audio)
  {
    if i > 0 {
      var p := i - 1;
      if Joins(Current(s, p), s[i]) {
        if j < i { CurrentCovers(s, p, j); } else { CurrentCovers(s, p, p); }
      } else if j < i {
        GroupsGrow(s, j, p);
      }
    }
  }

  lemma {:induction false} CurrentIsReached(s: seq<Span>, i: nat) returns (first: nat, m: nat)
    requires i < |s|
    ensures first <= i && Group(s, first) == Group(s, i) && Current(s, i).start == s[first].start
    ensures first == 0 || Group(s, first - 1) < Group(s, i)
    ensures m <= i && Group(s, m) == Group(s, i) && Current(s, i).end == s[m].end
    ensures Current(s, i).audio ==> exists a :: 0 <= a <= i && Group(s, a) == Group(s, i) && s[a].audio
  {
    if i == 0 || !Joins(Current(s, i - 1), s[i]) {
      first, m := i, i;
      assert Current(s, i).audio ==> s[i].audio;
    } else {
      first, m := CurrentIsReached(s, i - 1);
      if Current(s, i).audio && s[i].audio { assert Group(s, i) == Group(s, i) && s[i].audio; }
      if s[i].end > Current(s, i - 1).end { m := i; }
    }
  }

  /** The output span of a group is what the open span was at the group's last input. */
  lemma {:induction false} OutputOfGroup(s: seq<Span>, n: nat, hi: nat)
    requires n < |s| && hi <= n && (hi == n || !Joins(Current(s, hi), s[hi + 1]))
    ensures Group(s, hi) <= Group(s, n) && (Closed(s, n) + [Current(s, n)])[Group(s, hi)] == Current(s, hi)
    decreases n
  {
    GroupsGrow(s, hi, n);
    if hi < n {
      OutputOfGroup(s, n - 1, hi);
      GroupsGrow(s, hi, n - 1);
      if Joins(Current(s, n - 1), s[n]) && hi < n - 1 {
        GroupsGrow(s, hi + 1, n - 1);
      }
    }
  }

  /** The inputs of output g are a run lo..hi, and the output is exactly their hull with their audio flags ORed. */
  lemma OutputIsHull(s: seq<Span>, g: nat) returns (lo: nat, hi: nat)
    requires Sorted(s) && s != [] && g < |Merge(s)|
    ensures lo <= hi < |s| && forall i | 0 <= i < |s| :: Group(s, i) == g <==> lo <= i <= hi
    ensures lo == 0 || !Joins(Current(s, lo - 1), s[lo])
    ensures hi == |s| - 1 || !Joins(Current(s, hi), s[hi + 1])
    ensures
      var out := Merge(s)[g];
      && out == Current(s, hi)
      && (forall i | lo <= i <= hi :: s[i].cam == out.cam && out.start <= s[i].start && s[i].end <= out.end)
      && out.start == s[lo].start
      && (exists i :: lo <= i <= hi && s[i].end == out.end)
      && (out.audio <==> exists i :: lo <= i <= hi && s[i].audio)
  {
    lo, hi := GroupOccurs(s, |s| - 1, g);
    OutputOfGroup(s, |s| - 1, hi);
    var out := Current(s, hi);
    forall i | lo <= i <= hi
      ensures s[i].cam == out.cam && out.start <= s[i].start && s[i].end <= out.end && (s[i].audio ==> out.audio)
    {
      CurrentCovers(s, hi, i);
    }
    var first, m := CurrentIsReached(s, hi);
    assert first == lo;
  }

  // ---- Chains ----

  /** The later of two inputs of one camera starts less than a minute after the earlier one ends. */
  predicate Near(s: seq<Span>, i: nat, j: nat)
    requires i < |s| && j < |s|
  {
    var (a, b) := if i <= j then (s[i], s[j]) else (s[j], s[i]);
    a.cam == b.cam && b.start - a.end < 60
  }

  ghost predicate IsChain(s: seq<Span>, p: seq<nat>, i: nat, j: nat) {
    && p != [] && p[0] == i && p[|p| - 1] == j
    && (forall k | 0 <= k < |p| :: p[k] < |s|)
    && (forall k | 0 <= k < |p| - 1 :: Near(s, p[k], p[k + 1]))
  }

  /** Everything between two near inputs joins the span of the first. */
  lemma {:induction false} NearStaysTogether(s: seq<Span>, i: nat, k: nat, j: nat)
    requires Sorted(s) && i <= k <= j < |s| && Near(s, i, j)
    ensures Group(s, k) == Group(s, i)
  {
    if i < k {
      NearStaysTogether(s, i, k - 1, j);
      CurrentCovers(s, k - 1, i);
      assert NotAfter(s[i], s[k]) && (k < j ==> NotAfter(s[k], s[j]));
      assert Joins(Current(s, k - 1), s[k]);
    }
  }

  lemma {:induction false} ChainStaysTogether(s: seq<Span>, p: seq<nat>, i: nat, j: nat)
    requires Sorted(s) && IsChain(s, p, i, j)
    ensures i < |s| && j < |s| && Group(s, i) == Group(s, j)
    decreases |p|
  {
    if |p| > 1 {
      var rest := p[1..];
      assert Near(s, p[0], p[1]);
      NearStaysTogether(s, if i <= p[1] then i else p[1], if i <= p[1] then p[1] else i, if i <= p[1] then p[1] else i);
      forall k | 0 <= k < |rest| - 1 ensures Near(s, rest[k], rest[k + 1]) { assert Near(s, p[k + 1], p[k + 2]); }
      ChainStaysTogether(s, rest, p[1], j);
    }
  }

  lemma ChainBack(s: seq<Span>, p: seq<nat>, i: nat, j: nat) returns (q: seq<nat>)
    requires IsChain(s, p, i, j)
    ensures IsChain(s, q, j, i)
  {
    q := seq(|p|, k requires 0 <= k < |p| => p[|p| - 1 - k]);
    forall k | 0 <= k < |q| - 1
      ensures Near(s, q[k], q[k + 1])
    {
      assert Near(s, p[|p| - 2 - k], p[|p| - 1 - k]);
    }
  }

  lemma ChainOn(s: seq<Span>, p: seq<nat>, i: nat, j: nat, k: nat) returns (q: seq<nat>)
    requires IsChain(s, p, i, j) && k < |s| && Near(s, j, k)
    ensures IsChain(s, q, i, k)
  {
    q := p + [k];
    forall n | 0 <= n < |q| - 1
      ensures Near(s, q[n], q[n + 1])
    {
      if n < |p| - 1 { assert Near(s, p[n], p[n + 1]); }
    }
  }

  /** An input that joined its group is near an earlier one of it: the one that reached furthest. */
  lemma JoinedNear(s: seq<Span>, j: nat) returns (m: nat)
    requires Sorted(s) && 0 < j < |s| && Group(s, j - 1) == Group(s, j)
    ensures m < j && Group(s, m) == Group(s, j) && Near(s, m, j)
  {
    var first;
    first, m := CurrentIsReached(s, j - 1);
    CurrentCovers(s, j - 1, m);
  }

  /** Two inputs of one group are linked. */
  lemma {:induction false} GroupIsChained(s: seq<Span>, i: nat, j: nat) returns (p: seq<nat>)
    requires Sorted(s) && i <= j < |s| && Group(s, i) == Group(s, j)
    ensures IsChain(s, p, i, j)
    decreases j
  {
    hide Group, Near, Sorted;
    if i == j {
      p := [i];
    } else {
      GroupsGrow(s, i, j - 1);
      GroupsGrow(s, j - 1, j);
      var m := JoinedNear(s, j);
      if i <= m {
        p := GroupIsChained(s, i, m);
      } else {
        p := GroupIsChained(s, m, i);
        p := ChainBack(s, p, m, i);
      }
      p := ChainOn(s, p, i, m, j);
    }
  }

  /** Two inputs land in the same output span exactly when a chain of overlaps or short gaps links them. */
  lemma SameSpanIffChained(s: seq<Span>, i: nat, j: nat)
    requires Sorted(s) && i < |s| && j < |s|
    ensures Group(s, i) == Group(s, j) <==> exists p :: IsChain(s, p, i, j)
  {
    if Group(s, i) == Group(s, j) {
      if i <= j {
        var p := GroupIsChained(s, i, j);
      } else {
        var p := GroupIsChained(s, j, i);
        p := ChainBack(s, p, j, i);
      }
    }
    if exists p :: IsChain(s, p, i, j) {
      var p :| IsChain(s, p, i, j);
      ChainStaysTogether(s, p, i, j);
    }
  }

  // ---- The output as a whole ----

  /** Neighbouring outputs are of different cameras or at least a minute apart. */
  lemma NeighboursApart(s: seq<Span>, g: nat)
    requires Sorted(s) && g + 1 < |Merge(s)|
    ensures !Joins(Merge(s)[g], Merge(s)[g + 1]) && NotAfter(Merge(s)[g], Merge(s)[g + 1])
  {
    hide Merge, Group, Current;
    var lo, hi := OutputIsHull(s, g);
    var lo', hi' := OutputIsHull(s, g + 1);
    GroupsGrow(s, hi, hi + 1);
    assert lo' == hi + 1;
    assert NotAfter(s[lo], s[lo']);
    assert s[lo].cam == Merge(s)[g].cam && s[lo'].cam == Merge(s)[g + 1].cam;
  }

  lemma {:induction false} MergeIsSorted(s: seq<Span>, g: nat, h: nat)
    requires Sorted(s) && g < h < |Merge(s)|
    ensures NotAfter(Merge(s)[g], Merge(s)[h])
    ensures Merge(s)[g].cam == Merge(s)[h].cam ==> Merge(s)[h].start - Merge(s)[g].end >= 60
    decreases h - g
  {
    NeighboursApart(s, g);
    if g + 1 < h {
      MergeIsSorted(s, g + 1, h);
    }
  }

  lemma {:induction false} ApartIsKept(t: seq<Span>, i: nat)
    requires i < |t| && forall k | 0 <= k < |t| - 1 :: !Joins(t[k], t[k + 1])
    ensures Current(t, i) == t[i] && Closed(t, i) == t[..i]
  {
    if i > 0 { ApartIsKept(t, i - 1); }
  }

  /** Merging twice is merging once. */
  lemma MergeIsIdempotent(s: seq<Span>)
    requires Sorted(s)
    ensures Merge(Merge(s)) == Merge(s)
  {
    var t := Merge(s);
    if t != [] {
      forall k | 0 <= k < |t| - 1 ensures !Joins(t[k], t[k + 1]) { NeighboursApart(s, k); }
      ApartIsKept(t, |t| - 1);
    }
  }
}
