/**
 What the cross-reference lists hold, entry by entry: which calls and features stand in the row of
 a route, which rows a list has, and in which order.
 */
module RouteLists {
  import opened Text
  import opened Splitting
  import opened Routes

  // ---- Paths ----

  /** One slash at the end of a path makes no difference, and the pieces joined are the path. */
  lemma TrailingSlashIsIgnored(p: string)
    requires p != "" && p[|p| - 1] != '/'
    ensures Segments(p + "/") == Segments(p) && Join(Segments(p), '/') == p
    ensures Normal(p + "/") == Normal(p)
  {
    hide Split, Join, NormalSegments;
    assert (p + "/")[..|p|] == p;
    assert TrimSlash(p + "/") == p == TrimSlash(p);
    JoinSplit(p, '/');
  }

  ghost predicate FirstDifferenceIsLess(a: string, b: string) {
    exists k :: 0 <= k < |a| && k < |b| && a[..k] == b[..k] && a[k] < b[k]
  }

  lemma DifferenceBehind(a: string, b: string)
    requires a != "" && b != "" && a[0] == b[0]
    ensures FirstDifferenceIsLess(a, b) <==> FirstDifferenceIsLess(a[1..], b[1..])
    ensures a <= b <==> a[1..] <= b[1..]
  {
    var (s, t) := (a[1..], b[1..]);
    assert a == [a[0]] + s && b == [b[0]] + t;
    if k :| 0 <= k < |a| && k < |b| && a[..k] == b[..k] && a[k] < b[k] {
      assert k > 0 && s[..k - 1] == a[..k][1..] && t[..k - 1] == b[..k][1..] && s[k - 1] < t[k - 1];
    }
    if k :| 0 <= k < |s| && k < |t| && s[..k] == t[..k] && s[k] < t[k] {
      assert a[..k + 1] == [a[0]] + s[..k] && b[..k + 1] == [b[0]] + t[..k] && a[k + 1] < b[k + 1];
    }
  }

  lemma DifferenceInFront(a: string, b: string)
    requires a != "" && b != "" && a[0] != b[0]
    ensures FirstDifferenceIsLess(a, b) <==> a[0] < b[0]
    ensures !(a <= b)
  {
    assert a[..0] == b[..0];
    forall k | 0 < k < |a| && k < |b| ensures a[..k] != b[..k] {
      assert a[..k][0] == a[0] && b[..k][0] == b[0];
    }
  }

  /** The order of the frontend-only list: a prefix comes first, else the first difference decides. */
  lemma {:induction false} PathLeIs(a: string, b: string)
    ensures PathLe(a, b) <==> a <= b || FirstDifferenceIsLess(a, b)
  {
    if a != "" && b != "" {
      if a[0] == b[0] {
        PathLeIs(a[1..], b[1..]);
        DifferenceBehind(a, b);
      } else {
        DifferenceInFront(a, b);
      }
    }
  }

  // ---- The callers of a route ----

  ghost predicate Ascending(ks: seq<nat>, n: nat) {
    (forall i, j | 0 <= i < j < |ks| :: ks[i] < ks[j]) && forall i | 0 <= i < |ks| :: ks[i] < n
  }

  lemma AscendingMore(ks: seq<nat>, n: nat)
    requires Ascending(ks, n)
    ensures Ascending(ks, n + 1) && Ascending(ks + [n], n + 1) && n !in ks
  {
  }

  ghost predicate MayCall(rt: Route, c: FrontendCall) {
    (rt.verb == "ANY" || c.verb == rt.verb || (c.verb == "WS" && rt.verb == "GET")) &&
    ShareRequest(Segments(rt.path), Segments(c.path))
  }

  lemma CallersSnoc(rt: Route, calls: seq<FrontendCall>, c: FrontendCall)
    ensures Callers(rt, calls + [c]) == if MayCall(rt, c) then Callers(rt, calls) + [c] else Callers(rt, calls)
    ensures Callers(rt, []) == []
  {
    hide ShareRequest, Matching, Segments;
    assert (calls + [c])[..|calls|] == calls;
    MatchingIffShareRequest(rt.path, c.path);
  }

  /** A row's callers are the calls that may reach its route, each once and in the order they were found. */
  lemma {:induction false} RowCallersAre(rt: Route, calls: seq<FrontendCall>, claims: seq<Claim>) returns (ks: seq<nat>)
    ensures Picks(RowOf(rt, calls, claims).callers, calls, ks)
    ensures forall k: nat | k < |calls| :: k in ks <==> MayCall(rt, calls[k])
  {
    hide MayCall, Callers, Claimants, Picks;
    ks := [];
    if calls == [] {
      NoCallers(rt);
    } else {
      var n := |calls| - 1;
      var less, c := calls[..n], calls[n];
      var before := RowCallersAre(rt, less, claims);
      CallersSnoc(rt, less, c);
      PicksMore(Callers(rt, less), less, before, c);
      assert calls == less + [c];
      ks := if MayCall(rt, c) then before + [n] else before;
    }
  }

  lemma NoCallers(rt: Route)
    ensures Picks(Callers(rt, []), [], [])
  {
  }

  // ---- The features of a route ----

  /** A route entry of a feature, "METHOD path", speaks of the route. */
  ghost predicate EntryNames(spec: string, rt: Route) {
    exists verb, path ::
      spec == verb + " " + path && ' ' !in verb && (verb == rt.verb || rt.verb == "ANY" || verb == "ANY") &&
      ShareRequest(Segments(rt.path), Segments(path))
  }

  lemma EntryNamesIff(spec: string, rt: Route, id: string)
    ensures EntryNames(spec, rt) ==> Claimants(rt, ClaimOf(id, spec)) == [id]
    ensures !EntryNames(spec, rt) ==> Claimants(rt, ClaimOf(id, spec)) == []
  {
    hide Normal, Split, Segments, ShareRequest, Index, Matches;
    var at := Index(spec, " ");
    assert Claimants(rt, []) == [];
    if at.None? {
      forall verb: string, path ensures spec != verb + " " + path { BlankIsThere(spec, verb, path); }
    } else {
      var (v, p) := (spec[..at.value], spec[at.value + 1..]);
      BeforeFirst(spec, at.value);
      MatchingIffShareRequest(rt.path, p);
      forall verb, path | spec == verb + " " + path && ' ' !in verb ensures verb == v && path == p {
        CutAt(verb, path, v, p, ' ');
      }
      var cl := Claim(v, Normal(p), id);
      assert ClaimOf(id, spec) == [cl];
      assert [cl][..0] == [];
      assert EntryNames(spec, rt) <==> Claims(rt, cl);
    }
  }

  lemma BlankIsThere(spec: string, verb: string, path: string)
    ensures spec == verb + " " + path ==> Contains(spec, " ")
  {
    if spec == verb + " " + path { assert OccursAt(spec, " ", |verb|); }
  }

  lemma BeforeFirst(spec: string, k: nat)
    requires OccursAt(spec, " ", k) && forall j: nat | j < k :: !OccursAt(spec, " ", j)
    ensures ' ' !in spec[..k] && spec == spec[..k] + " " + spec[k + 1..]
  {
    forall j: nat | j < k ensures spec[j] != ' ' {
      if spec[j] == ' ' { assert OccursAt(spec, " ", j) by { assert spec[j..j + 1] == " "; } }
    }
    assert spec[k..k + 1] == " ";
  }

  lemma {:induction false} ClaimantsAppend(rt: Route, a: seq<Claim>, b: seq<Claim>)
    ensures Claimants(rt, a + b) == Claimants(rt, a) + Claimants(rt, b)
  {
    hide Claims;
    if b == [] {
      assert a + b == a;
    } else {
      var n := |b| - 1;
      ClaimantsAppend(rt, a, b[..n]);
      assert (a + b)[..|a| + n] == a + b[..n] && (a + b)[|a| + n] == b[n];
    }
  }

  ghost predicate AllAre(ids: seq<string>, id: string) {
    forall i | 0 <= i < |ids| :: ids[i] == id
  }

  lemma AllAreMore(ids: seq<string>, id: string)
    requires AllAre(ids, id)
    ensures AllAre(ids + [id], id) && ids + [] == ids
  {
  }

  /** The entries of one feature that speak of the route, each giving the feature's id once. */
  lemma {:induction false} FeatureEntries(rt: Route, id: string, specs: seq<string>) returns (js: seq<nat>)
    ensures Ascending(js, |specs|) && forall j: nat | j < |specs| :: j in js <==> EntryNames(specs[j], rt)
    ensures |Claimants(rt, ClaimsOf(id, specs))| == |js| && AllAre(Claimants(rt, ClaimsOf(id, specs)), id)
  {
    hide EntryNames, ClaimOf, Claimants, Ascending, AllAre;
    js := [];
    if specs == [] {
      NoClaimants(rt);
    } else {
      var n := |specs| - 1;
      var before := FeatureEntries(rt, id, specs[..n]);
      assert forall j: nat | j < n :: specs[..n][j] == specs[j];
      EntryNamesIff(specs[n], rt, id);
      ClaimantsAppend(rt, ClaimsOf(id, specs[..n]), ClaimOf(id, specs[n]));
      AscendingMore(before, n);
      AllAreMore(Claimants(rt, ClaimsOf(id, specs[..n])), id);
      js := if EntryNames(specs[n], rt) then before + [n] else before;
    }
  }

  lemma NoClaimants(rt: Route)
    ensures Claimants(rt, []) == [] && Ascending([], 0) && forall id :: AllAre([], id)
  {
  }

  /** The positions of route entries, features first. */
  ghost predicate InOrder(at: seq<(nat, nat)>) {
    forall i, j | 0 <= i < j < |at| :: at[i].0 < at[j].0 || (at[i].0 == at[j].0 && at[i].1 < at[j].1)
  }

  ghost predicate IsEntry(at: (nat, nat), features: seq<Feature>, rt: Route) {
    at.0 < |features| && at.1 < |features[at.0].routes| && EntryNames(features[at.0].routes[at.1], rt)
  }

  ghost predicate ShowIds(ids: seq<string>, at: seq<(nat, nat)>, features: seq<Feature>) {
    |ids| == |at| && forall i | 0 <= i < |ids| :: at[i].0 < |features| && ids[i] == features[at[i].0].id
  }

  /** A row's features are those with an entry for its route, once for each such entry, in the entries' order. */
  lemma {:induction false} RowFeaturesAre(rt: Route, calls: seq<FrontendCall>, features: seq<Feature>)
    returns (at: seq<(nat, nat)>)
    ensures InOrder(at) && forall x: (nat, nat) :: x in at <==> IsEntry(x, features, rt)
    ensures ShowIds(RowOf(rt, calls, AllClaims(features)).features, at, features)
  {
    hide EntryNames, Callers, IsEntry, ShowIds, InOrder;
    at := [];
    if features == [] {
      assert Claimants(rt, []) == [] by { NoClaimants(rt); }
      NoEntries(rt);
    } else {
      hide Claimants, ClaimsOf;
      var n := |features| - 1;
      var f := features[n];
      var before := RowFeaturesAre(rt, calls, features[..n]);
      var js := FeatureEntries(rt, f.id, f.routes);
      ClaimantsAppend(rt, AllClaims(features[..n]), ClaimsOf(f.id, f.routes));
      at := before + seq(|js|, i requires 0 <= i < |js| => (n, js[i]));
      EntriesSnoc(features, rt, before, js);
      IdsSnoc(Claimants(rt, AllClaims(features[..n])), Claimants(rt, ClaimsOf(f.id, f.routes)), before, js, features);
    }
  }

  lemma NoEntries(rt: Route)
    ensures InOrder([]) && ShowIds([], [], []) && forall x: (nat, nat) :: !IsEntry(x, [], rt)
  {
  }

  lemma IdsSnoc(ids: seq<string>, more: seq<string>, before: seq<(nat, nat)>, js: seq<nat>, features: seq<Feature>)
    requires features != [] && ShowIds(ids, before, features[..|features| - 1])
    requires |more| == |js| && forall i | 0 <= i < |more| :: more[i] == features[|features| - 1].id
    ensures ShowIds(ids + more, before + seq(|js|, i requires 0 <= i < |js| => (|features| - 1, js[i])), features)
  {
  }

  lemma EntriesSnoc(features: seq<Feature>, rt: Route, before: seq<(nat, nat)>, js: seq<nat>)
    requires features != []
    requires
      var n := |features| - 1;
      && InOrder(before) && (forall x: (nat, nat) :: x in before <==> IsEntry(x, features[..n], rt))
      && Ascending(js, |features[n].routes|)
      && forall j: nat | j < |features[n].routes| :: j in js <==> EntryNames(features[n].routes[j], rt)
    ensures
      var at := before + seq(|js|, i requires 0 <= i < |js| => (|features| - 1, js[i]));
      InOrder(at) && forall x: (nat, nat) :: x in at <==> IsEntry(x, features, rt)
  {
    hide EntryNames;
    var n := |features| - 1;
    var last := seq(|js|, i requires 0 <= i < |js| => (n, js[i]));
    forall x: (nat, nat) ensures x in before + last <==> IsEntry(x, features, rt) {
      assert x in last <==> x.0 == n && x.1 in js by {
        if x.0 == n && x.1 in js {
          var i :| 0 <= i < |js| && js[i] == x.1;
          assert last[i] == x;
        }
      }
      assert x in before <==> x.0 < n && IsEntry(x, features, rt) by {
        assert x.0 < n ==> features[..n][x.0] == features[x.0];
      }
    }
    forall i | 0 <= i < |before| ensures before[i].0 < n { assert before[i] in before; }
  }

  // ---- The rows of a list ----

  ghost predicate HasCaller(rt: Route, calls: seq<FrontendCall>) {
    exists c :: c in calls && MayCall(rt, c)
  }

  ghost function AllRows(routes: seq<Route>, calls: seq<FrontendCall>, claims: seq<Claim>): (r: seq<MatchRow>)
    ensures |r| == |routes| && forall k | 0 <= k < |r| :: r[k] == RowOf(routes[k], calls, claims)
  {
    seq(|routes|, k requires 0 <= k < |routes| => RowOf(routes[k], calls, claims))
  }

  lemma RowsSnoc(routes: seq<Route>, rt: Route, calls: seq<FrontendCall>, claims: seq<Claim>, called: bool)
    ensures
      var before := Rows(routes, calls, claims, called);
      Rows(routes + [rt], calls, claims, called) ==
        if called == HasCaller(rt, calls) then before + [RowOf(rt, calls, claims)] else before
    ensures AllRows(routes + [rt], calls, claims) == AllRows(routes, calls, claims) + [RowOf(rt, calls, claims)]
  {
    hide RowOf, HasCaller;
    HasCallers(rt, calls, claims);
    assert (routes + [rt])[..|routes|] == routes;
  }

  /** A list's rows are those of the routes with callers, or of those without, in the routes' order. */
  lemma {:induction false} RowsAre(routes: seq<Route>, calls: seq<FrontendCall>, claims: seq<Claim>, called: bool)
    returns (ks: seq<nat>)
    ensures Picks(Rows(routes, calls, claims, called), AllRows(routes, calls, claims), ks)
    ensures forall k: nat | k < |routes| :: k in ks <==> called == HasCaller(routes[k], calls)
  {
    hide HasCaller, RowOf, Rows, AllRows, Picks;
    ks := [];
    if routes == [] {
      NoRows(calls, claims, called);
    } else {
      var n := |routes| - 1;
      var less, rt := routes[..n], routes[n];
      var before := RowsAre(less, calls, claims, called);
      RowsSnoc(less, rt, calls, claims, called);
      PicksMore(Rows(less, calls, claims, called), AllRows(less, calls, claims), before, RowOf(rt, calls, claims));
      assert routes == less + [rt];
      ks := if called == HasCaller(rt, calls) then before + [n] else before;
    }
  }

  lemma NoRows(calls: seq<FrontendCall>, claims: seq<Claim>, called: bool)
    ensures Picks(Rows([], calls, claims, called), AllRows([], calls, claims), [])
  {
  }

  lemma HasCallers(rt: Route, calls: seq<FrontendCall>, claims: seq<Claim>)
    ensures RowOf(rt, calls, claims).callers != [] <==> HasCaller(rt, calls)
  {
    hide MayCall, RowOf;
    var ks := RowCallersAre(rt, calls, claims);
    if c :| c in calls && MayCall(rt, c) {
      var k :| 0 <= k < |calls| && calls[k] == c;
      assert k in ks;
    }
    if ks != [] { assert ks[0] in ks && calls[ks[0]] in calls; }
  }
}
